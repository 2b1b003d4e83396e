/** The run lifecycle: a state machine with an append-only journal. */
module Lifecycle {
  import opened Prelude

  datatype Phase =
    | Planned | Preflight | PreRunFailure | Preparation | Warmup | WarmupFailure | LogicalReset
    | ResetFailure | MeasurementStarted | MeasurementFailure | ProducerComplete | Drain
    | DrainFailure | Completed | FinalizedInvalid | FinalizedValid

  /** The protocol's coarser lifecycle states. */
  datatype State =
    | StPlanned | StPreRunFailure | StWarmupFailure | StResetFailure | StMeasurementStarted
    | StMeasurementFailure | StDrainFailure | StCompleted

  datatype ArtifactKind =
    | PlanArtifact | WarmupSchedule | MeasurementSchedule | ResetEvidence | ProducerObservations
    | ConsumerObservations | Counts | PhaseIntegrity | FailureEvidence | TransitionJournal | RecoveryEvidence

  datatype Action = Retain | AppendPartial | AppendComplete | DeclareAbsent

  datatype Consequence = Consequence(kind: ArtifactKind, action: Action, artifactId: string, rows: u64)

  datatype Rule =
    | NeedsConsequence | ArtifactUnique | AbsentArtifact | ArtifactId | NeedsFailureEvidence
    | NoFabrication | AbsenceExplicit | CompletedCandidates | InvalidEvidence | IllegalTransition
    | WhoWhy | Time | GenesisPlanned | NamespaceSeparation | ScheduleSeparation | TransitionClock
    | OutcomePhase | NotFailure | RecoveryOutsideRun | RecoveryExplicit | RecoveryDuration

  predicate IsFailure(p: Phase) {
    p == PreRunFailure || p == WarmupFailure || p == ResetFailure || p == MeasurementFailure || p == DrainFailure
  }

  predicate IsEarlyFailure(p: Phase) { p == PreRunFailure || p == WarmupFailure || p == ResetFailure }

  predicate Terminal(p: Phase) { p == FinalizedInvalid || p == FinalizedValid }

  predicate Legal(from: Phase, to: Phase) {
    match from
    case Planned => to == Preflight
    case Preflight => to == Preparation || to == PreRunFailure
    case Preparation => to == Warmup || to == PreRunFailure
    case Warmup => to == LogicalReset || to == WarmupFailure
    case LogicalReset => to == MeasurementStarted || to == ResetFailure
    case MeasurementStarted => to == ProducerComplete || to == MeasurementFailure
    case ProducerComplete => to == Drain || to == MeasurementFailure
    case Drain => to == Completed || to == DrainFailure
    case Completed => to == FinalizedValid || to == FinalizedInvalid
    case PreRunFailure => to == FinalizedInvalid
    case WarmupFailure => to == FinalizedInvalid
    case ResetFailure => to == FinalizedInvalid
    case MeasurementFailure => to == FinalizedInvalid
    case DrainFailure => to == FinalizedInvalid
    case FinalizedInvalid => false
    case FinalizedValid => false
  }

  function Projection(p: Phase, retained: State): State {
    match p
    case PreRunFailure => StPreRunFailure
    case WarmupFailure => StWarmupFailure
    case ResetFailure => StResetFailure
    case MeasurementStarted => StMeasurementStarted
    case ProducerComplete => StMeasurementStarted
    case Drain => StMeasurementStarted
    case MeasurementFailure => StMeasurementFailure
    case DrainFailure => StDrainFailure
    case Completed => StCompleted
    case FinalizedValid => StCompleted
    case FinalizedInvalid => retained
    case _ => StPlanned
  }

  // ---------------------------------------------------------------- consequences

  /** The artifacts only a measured run can have. */
  const MEASURED: seq<ArtifactKind> := [ProducerObservations, ConsumerObservations, Counts, PhaseIntegrity]

  predicate Has(cs: seq<Consequence>, kind: ArtifactKind) {
    exists k :: 0 <= k < |cs| && cs[k].kind == kind
  }

  predicate Present(cs: seq<Consequence>, kind: ArtifactKind) {
    exists k :: 0 <= k < |cs| && cs[k].kind == kind && cs[k].action != DeclareAbsent
  }

  predicate WellStated(c: Consequence) {
    if c.action == DeclareAbsent then c.artifactId == "" && c.rows == 0 else c.artifactId != ""
  }

  /** What an accepted transition to `target` says about artifacts. */
  predicate ConsequencesOk(target: Phase, cs: seq<Consequence>) {
    && cs != []
    && (forall j, k :: 0 <= j < k < |cs| ==> cs[j].kind != cs[k].kind)
    && (forall k :: 0 <= k < |cs| ==> WellStated(cs[k]))
    && (IsFailure(target) || target == FinalizedInvalid ==> Present(cs, FailureEvidence))
    && (IsEarlyFailure(target) ==> forall m :: 0 <= m < 4 ==> Has(cs, MEASURED[m]) && !Present(cs, MEASURED[m]))
    && (target == Completed ==> forall m :: 0 <= m < 4 ==> Present(cs, MEASURED[m]))
  }

  method ValidateConsequences(target: Phase, cs: seq<Consequence>) returns (errors: seq<Rule>)
    ensures errors == [] <==> ConsequencesOk(target, cs)
  {
    if cs == [] {
      return [NeedsConsequence];
    }
    errors := StatementErrors(cs);
    hide WellStated, Present, Has;
    if IsFailure(target) && !Present(cs, FailureEvidence) {
      errors := errors + [NeedsFailureEvidence];
    }
    if IsEarlyFailure(target) {
      var fabricated := FabricationErrors(cs);
      errors := errors + fabricated;
    }
    if target == Completed {
      var missing := MissingErrors(cs);
      errors := errors + missing;
    }
    if target == FinalizedInvalid && !Present(cs, FailureEvidence) {
      errors := errors + [InvalidEvidence];
    }
  }

  /** An early failure declares every measurement artifact absent. */
  method FabricationErrors(cs: seq<Consequence>) returns (errors: seq<Rule>)
    ensures errors == [] <==> forall m :: 0 <= m < 4 ==> Has(cs, MEASURED[m]) && !Present(cs, MEASURED[m])
  {
    hide Present, Has;
    errors := [];
    for m := 0 to 4
      invariant errors == [] <==> forall i :: 0 <= i < m ==> Has(cs, MEASURED[i]) && !Present(cs, MEASURED[i])
    {
      if Present(cs, MEASURED[m]) {
        errors := errors + [NoFabrication];
      }
      if !Has(cs, MEASURED[m]) {
        errors := errors + [AbsenceExplicit];
      }
    }
  }

  /** A completed run has every measurement artifact. */
  method MissingErrors(cs: seq<Consequence>) returns (errors: seq<Rule>)
    ensures errors == [] <==> forall m :: 0 <= m < 4 ==> Present(cs, MEASURED[m])
  {
    hide Present;
    errors := [];
    for m := 0 to 4
      invariant errors == [] <==> forall i :: 0 <= i < m ==> Present(cs, MEASURED[i])
    {
      if !Present(cs, MEASURED[m]) {
        errors := errors + [CompletedCandidates];
      }
    }
  }

  /** Uniqueness of kinds and form of each statement. */
  method StatementErrors(cs: seq<Consequence>) returns (errors: seq<Rule>)
    ensures errors == [] <==>
      && (forall j, k :: 0 <= j < k < |cs| ==> cs[j].kind != cs[k].kind)
      && (forall k :: 0 <= k < |cs| ==> WellStated(cs[k]))
  {
    errors := [];
    var seen: set<ArtifactKind> := {};
    for index := 0 to |cs|
      invariant forall kind :: kind in seen <==> exists k :: 0 <= k < index && cs[k].kind == kind
      invariant errors == [] <==>
        && (forall j, k :: 0 <= j < k < index ==> cs[j].kind != cs[k].kind)
        && (forall k :: 0 <= k < index ==> WellStated(cs[k]))
    {
      var c := cs[index];
      if c.kind in seen {
        errors := errors + [ArtifactUnique];
      }
      seen := seen + {c.kind};
      if c.action == DeclareAbsent {
        if c.artifactId != "" || c.rows != 0 {
          errors := errors + [AbsentArtifact];
        }
      } else if c.artifactId == "" {
        errors := errors + [ArtifactId];
      }
    }
  }

  // ---------------------------------------------------------------- machine values

  datatype TransitionRequest =
    TransitionRequest(next: Phase, timestamp: u64, actor: string, reason: string, consequences: seq<Consequence>)

  datatype Entry = Entry(
    sequence: nat, from: Option<Phase>, to: Phase, state: State, timestamp: u64,
    actor: string, reason: string, consequences: seq<Consequence>)

  datatype Outcome = Outcome(
    timestamp: u64, actor: string, reason: string, lifecycleFailure: bool, replacementTrigger: bool)

  datatype Recovery = Recovery(
    policyId: string, duration: u64, startedAt: u64, completedAt: u64,
    actor: string, reason: string, evidenceId: string)

  datatype Machine = Machine(
    phase: Phase, state: State, last: u64, journal: seq<Entry>, outcomes: seq<Outcome>, recoveries: seq<Recovery>)

  datatype Context = Context(
    warmupSchedule: string, measurementSchedule: string, warmupNamespace: string, measurementNamespace: string,
    clockId: string, timeUnit: string)

  datatype Request =
    | Transition(transition: TransitionRequest)
    | Annotate(outcome: Outcome)
    | Recover(recovery: Recovery)

  predicate GenesisOk(context: Context, g: TransitionRequest) {
    && context.warmupNamespace != context.measurementNamespace
    && context.warmupSchedule != context.measurementSchedule
    && context.clockId != "" && context.timeUnit != ""
    && g.next == Planned && g.actor != "" && g.reason != ""
    && ConsequencesOk(g.next, g.consequences)
  }

  function Genesis(g: TransitionRequest): Machine {
    Machine(Planned, StPlanned, g.timestamp,
            [Entry(0, None, Planned, StPlanned, g.timestamp, g.actor, g.reason, g.consequences)], [], [])
  }

  predicate Accepts(m: Machine, r: Request) {
    match r
    case Transition(t) =>
      && Legal(m.phase, t.next) && t.actor != "" && t.reason != ""
      && t.timestamp >= m.last && ConsequencesOk(t.next, t.consequences)
    case Annotate(o) =>
      && (m.phase == Completed || m.phase == FinalizedValid)
      && o.actor != "" && o.reason != "" && o.timestamp >= m.last
      && !o.lifecycleFailure && !o.replacementTrigger
    case Recover(v) =>
      && Terminal(m.phase)
      && v.policyId != "" && v.actor != "" && v.reason != "" && v.evidenceId != "" && v.duration != 0
      && v.startedAt >= m.last && v.completedAt >= v.startedAt && v.completedAt - v.startedAt >= v.duration
  }

  /** A rejected request leaves the machine as it is. */
  function Apply(m: Machine, r: Request): Machine {
    if !Accepts(m, r) then m
    else
      match r
      case Transition(t) =>
        var state := Projection(t.next, m.state);
        m.(phase := t.next, state := state, last := t.timestamp,
           journal := m.journal + [Entry(|m.journal|, Some(m.phase), t.next, state, t.timestamp,
                                         t.actor, t.reason, t.consequences)])
      case Annotate(o) => m.(last := o.timestamp, outcomes := m.outcomes + [o])
      case Recover(v) => m.(last := v.completedAt, recoveries := m.recoveries + [v])
  }

  function Run(m: Machine, requests: seq<Request>): Machine {
    if requests == [] then m else Apply(Run(m, requests[..|requests| - 1]), requests[|requests| - 1])
  }

  // ---------------------------------------------------------------- the object

  class RunStateMachine {
    var phase: Phase
    var protocolState: State
    var lastTimestamp: u64
    var transitions: seq<Entry>
    var outcomes: seq<Outcome>
    var recoveries: seq<Recovery>

    constructor (genesis: Entry)
      ensures View() == Machine(Planned, StPlanned, genesis.timestamp, [genesis], [], [])
    {
      phase := Planned;
      protocolState := StPlanned;
      lastTimestamp := genesis.timestamp;
      transitions := [genesis];
      outcomes := [];
      recoveries := [];
    }

    function View(): Machine
      reads this
    {
      Machine(phase, protocolState, lastTimestamp, transitions, outcomes, recoveries)
    }

    static method Create(context: Context, genesis: TransitionRequest)
      returns (r: Result<RunStateMachine, seq<Rule>>)
      ensures r.Ok? <==> GenesisOk(context, genesis)
      ensures r.Ok? ==> fresh(r.value) && r.value.View() == Genesis(genesis)
      ensures r.Err? ==> r.error != []
    {
      var errors: seq<Rule> := [];
      if context.warmupNamespace == context.measurementNamespace {
        errors := errors + [NamespaceSeparation];
      }
      if context.warmupSchedule == context.measurementSchedule {
        errors := errors + [ScheduleSeparation];
      }
      if context.clockId == "" || context.timeUnit == "" {
        errors := errors + [TransitionClock];
      }
      if genesis.next != Planned {
        errors := errors + [GenesisPlanned];
      }
      if genesis.actor == "" || genesis.reason == "" {
        errors := errors + [WhoWhy];
      }
      var consequenceErrors := ValidateConsequences(genesis.next, genesis.consequences);
      errors := errors + consequenceErrors;
      if errors != [] {
        return Err(errors);
      }
      var entry := Entry(0, None, Planned, StPlanned, genesis.timestamp, genesis.actor, genesis.reason,
                         genesis.consequences);
      var machine := new RunStateMachine(entry);
      return Ok(machine);
    }

    method DoTransition(t: TransitionRequest) returns (errors: seq<Rule>)
      modifies this
      ensures errors == [] <==> Accepts(old(View()), Transition(t))
      ensures View() == Apply(old(View()), Transition(t))
    {
      errors := [];
      if !Legal(phase, t.next) {
        errors := errors + [IllegalTransition];
      }
      if t.actor == "" || t.reason == "" {
        errors := errors + [WhoWhy];
      }
      if t.timestamp < lastTimestamp {
        errors := errors + [Time];
      }
      var consequenceErrors := ValidateConsequences(t.next, t.consequences);
      errors := errors + consequenceErrors;
      if errors != [] {
        return;
      }
      var previous := phase;
      protocolState := Projection(t.next, protocolState);
      phase := t.next;
      lastTimestamp := t.timestamp;
      transitions := transitions + [Entry(|transitions|, Some(previous), phase, protocolState, t.timestamp,
                                          t.actor, t.reason, t.consequences)];
    }

    method RecordOutcome(o: Outcome) returns (errors: seq<Rule>)
      modifies this
      ensures errors == [] <==> Accepts(old(View()), Annotate(o))
      ensures View() == Apply(old(View()), Annotate(o))
    {
      errors := [];
      if phase != Completed && phase != FinalizedValid {
        errors := errors + [OutcomePhase];
      }
      if o.actor == "" || o.reason == "" {
        errors := errors + [WhoWhy];
      }
      if o.timestamp < lastTimestamp {
        errors := errors + [Time];
      }
      if o.lifecycleFailure || o.replacementTrigger {
        errors := errors + [NotFailure];
      }
      if errors != [] {
        return;
      }
      lastTimestamp := o.timestamp;
      outcomes := outcomes + [o];
    }

    method RecordRecovery(v: Recovery) returns (errors: seq<Rule>)
      modifies this
      ensures errors == [] <==> Accepts(old(View()), Recover(v))
      ensures View() == Apply(old(View()), Recover(v))
    {
      errors := [];
      if !Terminal(phase) {
        errors := errors + [RecoveryOutsideRun];
      }
      if v.policyId == "" || v.actor == "" || v.reason == "" || v.evidenceId == "" || v.duration == 0 {
        errors := errors + [RecoveryExplicit];
      }
      if v.startedAt < lastTimestamp || v.completedAt < v.startedAt
         || v.completedAt - v.startedAt < v.duration {
        errors := errors + [RecoveryDuration];
      }
      if errors != [] {
        return;
      }
      lastTimestamp := v.completedAt;
      recoveries := recoveries + [v];
    }
  }

  // ---------------------------------------------------------------- whole runs

  /** The journal is a consecutive legal path with nondecreasing times and sound consequences. */
  ghost predicate JournalOk(journal: seq<Entry>) {
    && journal != []
    && journal[0].from == None && journal[0].to == Planned && journal[0].state == StPlanned
    && (forall i :: 0 <= i < |journal| ==> EntryOk(journal[i], i))
    && (forall i :: 0 < i < |journal| ==> Follows(journal[i - 1], journal[i]))
  }

  ghost predicate EntryOk(e: Entry, i: nat) {
    e.sequence == i && e.actor != "" && e.reason != "" && ConsequencesOk(e.to, e.consequences)
  }

  ghost predicate Follows(a: Entry, b: Entry) {
    && b.from == Some(a.to) && Legal(a.to, b.to)
    && b.state == Projection(b.to, a.state)
    && a.timestamp <= b.timestamp
  }

  /** Recoveries are disjoint, cover their durations, and follow the finalizing entry. */
  ghost predicate RecoveriesOk(m: Machine)
    requires m.journal != []
  {
    && (m.recoveries != [] ==> Terminal(m.phase))
    && (forall i :: 0 <= i < |m.recoveries| ==>
          && m.journal[|m.journal| - 1].timestamp <= m.recoveries[i].startedAt
          && m.recoveries[i].startedAt + m.recoveries[i].duration <= m.recoveries[i].completedAt <= m.last)
    && (forall i, j :: 0 <= i < j < |m.recoveries| ==> m.recoveries[i].completedAt <= m.recoveries[j].startedAt)
  }

  ghost predicate Invariant(m: Machine) {
    && JournalOk(m.journal)
    && var end := m.journal[|m.journal| - 1];
       && m.phase == end.to && m.state == end.state && end.timestamp <= m.last
       && RecoveriesOk(m)
       && (m.outcomes != [] ==> m.phase == Completed || Terminal(m.phase))
       && (forall o :: o in m.outcomes ==> Annotation(o))
  }

  /** An outcome is somebody's reasoned annotation: never a failure of the run, never a trigger of a replacement. */
  ghost predicate Annotation(o: Outcome) {
    !o.lifecycleFailure && !o.replacementTrigger && o.actor != "" && o.reason != ""
  }

  lemma AppendEntry(journal: seq<Entry>, e: Entry)
    requires JournalOk(journal) && Follows(journal[|journal| - 1], e) && EntryOk(e, |journal|)
    ensures JournalOk(journal + [e])
  {
    hide EntryOk, Follows;
    var all := journal + [e];
    forall i | 0 < i < |all| ensures Follows(all[i - 1], all[i]) {
      if i < |journal| {
        assert Follows(journal[i - 1], journal[i]);
      }
    }
  }

  lemma TransitionKeepsInvariant(m: Machine, t: TransitionRequest)
    requires Invariant(m) && Accepts(m, Transition(t))
    ensures Invariant(Apply(m, Transition(t)))
  {
    assert m.journal != [] && !Terminal(m.phase) && m.recoveries == [];
    hide ConsequencesOk, JournalOk, Legal, Projection, RecoveriesOk, Follows, EntryOk;
    var next := Apply(m, Transition(t));
    var e := next.journal[|m.journal|];
    NextEntry(m.journal[|m.journal| - 1], m, t);
    AppendEntry(m.journal, e);
    NoRecoveries(next);
  }

  lemma NextEntry(last: Entry, m: Machine, t: TransitionRequest)
    requires Accepts(m, Transition(t)) && last.to == m.phase && last.state == m.state && last.timestamp <= m.last
    ensures var e := Entry(|m.journal|, Some(m.phase), t.next, Projection(t.next, m.state), t.timestamp,
                           t.actor, t.reason, t.consequences);
            Follows(last, e) && EntryOk(e, |m.journal|)
  {
    hide ConsequencesOk, Legal, Projection;
  }

  lemma NoRecoveries(m: Machine)
    requires m.journal != [] && m.recoveries == []
    ensures RecoveriesOk(m)
  {
  }

  lemma RecoverKeepsInvariant(m: Machine, v: Recovery)
    requires Invariant(m) && Accepts(m, Recover(v))
    ensures Invariant(Apply(m, Recover(v)))
  {
    assert m.journal != [];
    hide JournalOk;
  }

  lemma AnnotateKeepsInvariant(m: Machine, o: Outcome)
    requires Invariant(m) && Accepts(m, Annotate(o))
    ensures Invariant(Apply(m, Annotate(o)))
  {
    assert m.journal != [];
    hide JournalOk;
    assert Annotation(o);
    assert RecoveriesOk(Apply(m, Annotate(o)));
    hide RecoveriesOk, Annotation;
  }

  lemma ApplyKeepsInvariant(m: Machine, r: Request)
    requires Invariant(m)
    ensures Invariant(Apply(m, r))
  {
    assert m.journal != [];
    hide JournalOk, ConsequencesOk;
    if Accepts(m, r) {
      match r
      case Transition(t) => TransitionKeepsInvariant(m, t);
      case Annotate(o) => AnnotateKeepsInvariant(m, o);
      case Recover(v) => RecoverKeepsInvariant(m, v);
    }
  }

  lemma GenesisInvariant(context: Context, g: TransitionRequest)
    requires GenesisOk(context, g)
    ensures Invariant(Genesis(g))
  {
    hide ConsequencesOk;
  }

  /** Every run from an accepted genesis keeps the invariant. */
  lemma {:induction false} RunsKeepInvariant(context: Context, g: TransitionRequest, requests: seq<Request>)
    requires GenesisOk(context, g)
    ensures Invariant(Run(Genesis(g), requests))
  {
    hide Apply, Invariant, ConsequencesOk;
    if requests == [] {
      GenesisInvariant(context, g);
    } else {
      RunsKeepInvariant(context, g, requests[..|requests| - 1]);
      ApplyKeepsInvariant(Run(Genesis(g), requests[..|requests| - 1]), requests[|requests| - 1]);
    }
  }

  /** Progress: every legal transition raises the rank. */
  function Rank(p: Phase): nat {
    match p
    case Planned => 0
    case Preflight => 1
    case Preparation => 2
    case Warmup => 3
    case LogicalReset => 4
    case MeasurementStarted => 5
    case ProducerComplete => 6
    case Drain => 7
    case FinalizedInvalid => 9
    case FinalizedValid => 9
    case _ => 8
  }

  lemma {:induction false} IndexBelowRank(journal: seq<Entry>, i: nat)
    requires JournalOk(journal) && i < |journal|
    ensures i <= Rank(journal[i].to)
  {
    hide EntryOk;
    if i > 0 {
      IndexBelowRank(journal, i - 1);
      assert Follows(journal[i - 1], journal[i]);
    }
  }

  /** A journal never exceeds ten records. */
  lemma JournalBounded(context: Context, g: TransitionRequest, requests: seq<Request>)
    requires GenesisOk(context, g)
    ensures 1 <= |Run(Genesis(g), requests).journal| <= 10
  {
    hide EntryOk, Run, Follows, RecoveriesOk;
    RunsKeepInvariant(context, g, requests);
    var journal := Run(Genesis(g), requests).journal;
    IndexBelowRank(journal, |journal| - 1);
  }

  /** The phases of a run without failure. */
  const NORMAL: seq<Phase> := [Planned, Preflight, Preparation, Warmup, LogicalReset, MeasurementStarted,
                               ProducerComplete, Drain, Completed, FinalizedValid]

  /** A normal phase is only ever reached through all the normal phases before it. */
  lemma {:induction false} NormalPrefix(journal: seq<Entry>, i: nat, n: nat)
    requires JournalOk(journal) && i < |journal| && n < 10 && journal[i].to == NORMAL[n]
    ensures i == n && forall k :: 0 <= k <= i ==> journal[k].to == NORMAL[k]
  {
    hide EntryOk;
    if i > 0 {
      assert Follows(journal[i - 1], journal[i]);
      NormalBefore(journal[i - 1], journal[i], n);
      hide Follows;
      NormalPrefix(journal, i - 1, n - 1);
    } else {
      StartsNormal(n);
    }
  }

  lemma NormalBefore(a: Entry, b: Entry, n: nat)
    requires Follows(a, b) && n < 10 && b.to == NORMAL[n]
    ensures n > 0 && a.to == NORMAL[n - 1]
  {
  }

  lemma StartsNormal(n: nat)
    requires n < 10 && NORMAL[n] == Planned
    ensures n == 0
  {
  }

  /** A valid finalization has passed every normal phase, in order, and nothing else. */
  lemma ValidFinalization(context: Context, g: TransitionRequest, requests: seq<Request>)
    requires GenesisOk(context, g) && Run(Genesis(g), requests).phase == FinalizedValid
    ensures var m := Run(Genesis(g), requests);
            && |m.journal| == 10 && m.state == StCompleted
            && (forall k :: 0 <= k < 10 ==> m.journal[k].to == NORMAL[k] && !IsFailure(m.journal[k].to))
  {
    hide Run, ConsequencesOk, RecoveriesOk, Follows;
    RunsKeepInvariant(context, g, requests);
    var m := Run(Genesis(g), requests);
    NormalPrefix(m.journal, |m.journal| - 1, 9);
    assert Follows(m.journal[8], m.journal[9]);
    ProjectedState(m.journal[8], m.journal[9]);
  }

  lemma ProjectedState(a: Entry, b: Entry)
    requires Follows(a, b)
    ensures b.state == Projection(b.to, a.state)
  {
  }

  /** An invalid finalization keeps the projected state of the entry before it, with failure evidence. */
  lemma InvalidFinalization(context: Context, g: TransitionRequest, requests: seq<Request>)
    requires GenesisOk(context, g) && Run(Genesis(g), requests).phase == FinalizedInvalid
    ensures var m := Run(Genesis(g), requests);
            var n := |m.journal|;
            && n >= 2 && m.state == m.journal[n - 2].state
            && (IsFailure(m.journal[n - 2].to) || m.journal[n - 2].to == Completed)
            && Present(m.journal[n - 1].consequences, FailureEvidence)
  {
    hide Run, ConsequencesOk, RecoveriesOk, Follows;
    RunsKeepInvariant(context, g, requests);
    var m := Run(Genesis(g), requests);
    var n := |m.journal|;
    assert EntryOk(m.journal[n - 1], n - 1);
    assert Follows(m.journal[n - 2], m.journal[n - 1]);
    LastStep(m.journal[n - 2], m.journal[n - 1]);
  }

  lemma LastStep(a: Entry, b: Entry)
    requires Follows(a, b) && b.to == FinalizedInvalid && ConsequencesOk(b.to, b.consequences)
    ensures b.state == a.state && (IsFailure(a.to) || a.to == Completed)
    ensures Present(b.consequences, FailureEvidence)
  {
  }

  /** Once finalized, the phase, the journal and the projected state never change again. */
  lemma {:induction false} FinalizedForever(m: Machine, requests: seq<Request>)
    requires Terminal(m.phase)
    ensures var n := Run(m, requests);
            n.phase == m.phase && n.journal == m.journal && n.state == m.state
  {
    hide Apply;
    if requests != [] {
      FinalizedForever(m, requests[..|requests| - 1]);
      TerminalStays(Run(m, requests[..|requests| - 1]), requests[|requests| - 1]);
    }
  }

  lemma TerminalStays(m: Machine, r: Request)
    requires Terminal(m.phase)
    ensures var n := Apply(m, r);
            n.phase == m.phase && n.journal == m.journal && n.state == m.state
  {
    hide ConsequencesOk;
  }

  /** What only a measured run can have. */
  ghost predicate Measured(kind: ArtifactKind) {
    kind == ProducerObservations || kind == ConsumerObservations || kind == Counts || kind == PhaseIntegrity
  }

  lemma MeasuredIs(kind: ArtifactKind) returns (m: nat)
    requires Measured(kind)
    ensures m < 4 && MEASURED[m] == kind
  {
    m := if kind == ProducerObservations then 0 else if kind == ConsumerObservations then 1
         else if kind == Counts then 2 else 3;
  }

  /** A failure before measurement states of every measurement artifact that it is absent, and nothing else. */
  lemma EarlyFailuresFabricateNothing(
    context: Context, g: TransitionRequest, requests: seq<Request>, i: nat, kind: ArtifactKind)
    requires GenesisOk(context, g) && i < |Run(Genesis(g), requests).journal| && Measured(kind)
    requires Run(Genesis(g), requests).journal[i].to in {PreRunFailure, WarmupFailure, ResetFailure}
    ensures var stated := Run(Genesis(g), requests).journal[i].consequences;
            && (exists c :: c in stated && c.kind == kind)
            && (forall c :: c in stated && c.kind == kind ==> c == Consequence(kind, DeclareAbsent, "", 0))
  {
    hide Run, RecoveriesOk, Follows;
    RunsKeepInvariant(context, g, requests);
    var e := Run(Genesis(g), requests).journal[i];
    assert EntryOk(e, i);
    var m := MeasuredIs(kind);
    assert Has(e.consequences, MEASURED[m]) && !Present(e.consequences, MEASURED[m]);
    forall c | c in e.consequences && c.kind == kind ensures c == Consequence(kind, DeclareAbsent, "", 0) {
      var k :| 0 <= k < |e.consequences| && e.consequences[k] == c;
      assert WellStated(e.consequences[k]);
    }
  }

  /** A completed run has every measurement artifact. */
  lemma CompletedIsMeasured(
    context: Context, g: TransitionRequest, requests: seq<Request>, i: nat, kind: ArtifactKind)
    requires GenesisOk(context, g) && i < |Run(Genesis(g), requests).journal| && Measured(kind)
    requires Run(Genesis(g), requests).journal[i].to == Completed
    ensures exists c :: c in Run(Genesis(g), requests).journal[i].consequences
              && c.kind == kind && c.action != DeclareAbsent && c.artifactId != ""
  {
    hide Run, RecoveriesOk, Follows;
    RunsKeepInvariant(context, g, requests);
    var e := Run(Genesis(g), requests).journal[i];
    assert EntryOk(e, i);
    var m := MeasuredIs(kind);
    assert Present(e.consequences, MEASURED[m]);
    var k :| 0 <= k < |e.consequences| && e.consequences[k].kind == kind && e.consequences[k].action != DeclareAbsent;
    assert WellStated(e.consequences[k]);
  }

  // ---------------------------------------------------------------- the shapes of journals

  /** The failure that can follow the first k normal phases. */
  function FailureAfter(k: nat): Option<Phase> {
    if k == 2 || k == 3 then Some(PreRunFailure)
    else if k == 4 then Some(WarmupFailure)
    else if k == 5 then Some(ResetFailure)
    else if k == 6 || k == 7 then Some(MeasurementFailure)
    else if k == 8 then Some(DrainFailure)
    else None
  }

  /** The first k normal phases, then nothing, an invalid end, a failure, or a failure and an invalid end. */
  ghost predicate ShapedAt(phases: seq<Phase>, k: nat) {
    && 1 <= k <= 10 && k <= |phases| && phases[..k] == NORMAL[..k]
    && var tail := phases[k..];
       || tail == []
       || (k == 9 && tail == [FinalizedInvalid])
       || (FailureAfter(k).Some?
           && (tail == [FailureAfter(k).value] || tail == [FailureAfter(k).value, FinalizedInvalid]))
  }

  ghost predicate Shaped(phases: seq<Phase>) { exists k: nat :: ShapedAt(phases, k) }

  ghost function Phases(journal: seq<Entry>): (r: seq<Phase>)
    ensures |r| == |journal|
  {
    seq(|journal|, i requires 0 <= i < |journal| => journal[i].to)
  }

  lemma NormalShape(journal: seq<Entry>, k: nat)
    requires JournalOk(journal) && 1 <= k <= |journal| && k <= 10 && journal[k - 1].to == NORMAL[k - 1]
    ensures Phases(journal)[..k] == NORMAL[..k]
  {
    NormalPrefix(journal, k - 1, k - 1);
    hide JournalOk;
  }

  /** The journal of every run has one of the shapes. */
  lemma JournalShapes(context: Context, g: TransitionRequest, requests: seq<Request>)
    requires GenesisOk(context, g)
    ensures Shaped(Phases(Run(Genesis(g), requests).journal))
  {
    hide Run, ConsequencesOk, RecoveriesOk, Shaped, EntryOk;
    RunsKeepInvariant(context, g, requests);
    ShapedJournal(Run(Genesis(g), requests).journal);
  }

  lemma ShapedJournal(journal: seq<Entry>)
    requires JournalOk(journal)
    ensures Shaped(Phases(journal))
  {
    hide EntryOk, Follows, Shaped, ShapedAt;
    var n, last := |journal|, journal[|journal| - 1].to;
    if k: nat :| k < 10 && NORMAL[k] == last {
      NormalEnd(journal, k);
    } else {
      NotNormal(last);
      StartIsNormal(journal);
      if IsFailure(last) {
        FailureEnd(journal, n - 1);
      } else {
        InvalidEnd(journal);
      }
    }
  }

  lemma StartIsNormal(journal: seq<Entry>)
    requires JournalOk(journal) && forall k: nat :: k < 10 ==> NORMAL[k] != journal[|journal| - 1].to
    ensures |journal| > 1
  {
    hide EntryOk, Follows;
    assert NORMAL[0] == Planned;
  }

  lemma NormalEnd(journal: seq<Entry>, k: nat)
    requires JournalOk(journal) && k < 10 && NORMAL[k] == journal[|journal| - 1].to
    ensures Shaped(Phases(journal))
  {
    var n, phases := |journal|, Phases(journal);
    NormalPrefix(journal, n - 1, k);
    NormalShape(journal, n);
    hide JournalOk, Phases;
    assert ShapedAt(phases, n);
  }

  lemma FailureEnd(journal: seq<Entry>, i: nat)
    requires JournalOk(journal) && 0 < i < |journal| && IsFailure(journal[i].to)
    requires |journal| == i + 1 || (|journal| == i + 2 && journal[i + 1].to == FinalizedInvalid)
    ensures Shaped(Phases(journal))
  {
    ShapedFailure(journal, i);
    hide JournalOk;
    var phases := Phases(journal);
    assert phases[i..] == if |journal| == i + 1 then [journal[i].to] else [journal[i].to, FinalizedInvalid];
    assert ShapedAt(phases, i);
  }

  lemma InvalidEnd(journal: seq<Entry>)
    requires JournalOk(journal) && |journal| > 1 && journal[|journal| - 1].to == FinalizedInvalid
    ensures Shaped(Phases(journal))
  {
    hide EntryOk;
    var n, phases := |journal|, Phases(journal);
    assert Follows(journal[n - 2], journal[n - 1]);
    BeforeInvalid(journal[n - 2], journal[n - 1]);
    hide Follows;
    if IsFailure(journal[n - 2].to) {
      NotPlanned(journal, n - 2);
      FailureEnd(journal, n - 2);
    } else {
      NormalPrefix(journal, n - 2, 8);
      NormalShape(journal, 9);
      assert phases[9..] == [FinalizedInvalid];
      assert ShapedAt(phases, 9);
    }
  }

  lemma NotPlanned(journal: seq<Entry>, i: nat)
    requires JournalOk(journal) && i < |journal| && IsFailure(journal[i].to)
    ensures i > 0
  {
  }

  lemma NotNormal(p: Phase)
    requires forall k: nat :: k < 10 ==> NORMAL[k] != p
    ensures IsFailure(p) || p == FinalizedInvalid
  {
    assert NORMAL[0] != p && NORMAL[1] != p && NORMAL[2] != p && NORMAL[3] != p && NORMAL[4] != p;
    assert NORMAL[5] != p && NORMAL[6] != p && NORMAL[7] != p && NORMAL[8] != p && NORMAL[9] != p;
  }

  lemma BeforeInvalid(a: Entry, b: Entry)
    requires Follows(a, b) && b.to == FinalizedInvalid
    ensures IsFailure(a.to) || a.to == Completed == NORMAL[8]
  {
  }

  /** A failure at place i comes right after the first i normal phases. */
  lemma ShapedFailure(journal: seq<Entry>, i: nat)
    requires JournalOk(journal) && 0 < i < |journal| && IsFailure(journal[i].to)
    ensures i <= 8 && Phases(journal)[..i] == NORMAL[..i] && FailureAfter(i) == Some(journal[i].to)
  {
    hide EntryOk;
    assert Follows(journal[i - 1], journal[i]);
    var k := BeforeFailure(journal[i - 1], journal[i]);
    hide Follows;
    NormalPrefix(journal, i - 1, k - 1);
    NormalShape(journal, i);
  }

  lemma BeforeFailure(a: Entry, b: Entry) returns (k: nat)
    requires Follows(a, b) && IsFailure(b.to)
    ensures 1 <= k <= 8 && a.to == NORMAL[k - 1] && FailureAfter(k) == Some(b.to)
  {
    k := Rank(a.to) + 1;
  }

  /** The protocol state that each entry of every run projects. */
  lemma ProjectedStates(context: Context, g: TransitionRequest, requests: seq<Request>, i: nat)
    requires GenesisOk(context, g) && i < |Run(Genesis(g), requests).journal|
    ensures var journal := Run(Genesis(g), requests).journal;
            var p, state := journal[i].to, journal[i].state;
            && (p in {Planned, Preflight, Preparation, Warmup, LogicalReset} ==> state == StPlanned)
            && (p in {MeasurementStarted, ProducerComplete, Drain} ==> state == StMeasurementStarted)
            && (p in {Completed, FinalizedValid} ==> state == StCompleted)
            && (p == PreRunFailure ==> state == StPreRunFailure)
            && (p == WarmupFailure ==> state == StWarmupFailure)
            && (p == ResetFailure ==> state == StResetFailure)
            && (p == MeasurementFailure ==> state == StMeasurementFailure)
            && (p == DrainFailure ==> state == StDrainFailure)
            && (p == FinalizedInvalid ==> i > 0 && state == journal[i - 1].state)
            && (i + 1 == |journal| ==> Run(Genesis(g), requests).state == state)
  {
    hide Run, ConsequencesOk, RecoveriesOk, EntryOk;
    RunsKeepInvariant(context, g, requests);
    var journal := Run(Genesis(g), requests).journal;
    if i > 0 {
      assert Follows(journal[i - 1], journal[i]);
    }
  }

  /** Every failure, early or late, and every invalid end comes with failure evidence. */
  lemma FailuresHaveEvidence(context: Context, g: TransitionRequest, requests: seq<Request>, i: nat)
    requires GenesisOk(context, g) && i < |Run(Genesis(g), requests).journal|
    requires Run(Genesis(g), requests).journal[i].to in {PreRunFailure, WarmupFailure, ResetFailure,
      MeasurementFailure, DrainFailure, FinalizedInvalid}
    ensures exists c :: c in Run(Genesis(g), requests).journal[i].consequences
              && c.kind == FailureEvidence && c.action != DeclareAbsent && c.artifactId != ""
  {
    hide Run, RecoveriesOk, Follows;
    RunsKeepInvariant(context, g, requests);
    var e := Run(Genesis(g), requests).journal[i];
    assert EntryOk(e, i);
    var k :| 0 <= k < |e.consequences| && e.consequences[k].kind == FailureEvidence
      && e.consequences[k].action != DeclareAbsent;
    assert WellStated(e.consequences[k]);
  }

  // ---------------------------------------------------------------- every shape is reached

  /** Statements that pass for any target: all artifacts present, or after an early failure all absent. */
  function Statements(target: Phase): seq<Consequence> {
    var action := if IsEarlyFailure(target) then DeclareAbsent else AppendComplete;
    var id := if IsEarlyFailure(target) then "" else "x";
    [Consequence(FailureEvidence, AppendComplete, "x", 0), Consequence(ProducerObservations, action, id, 0),
     Consequence(ConsumerObservations, action, id, 0), Consequence(Counts, action, id, 0),
     Consequence(PhaseIntegrity, action, id, 0)]
  }

  lemma StatementsPass(target: Phase)
    ensures ConsequencesOk(target, Statements(target))
  {
    var cs := Statements(target);
    assert Present(cs, FailureEvidence) by {
      assert cs[0].kind == FailureEvidence && cs[0].action != DeclareAbsent;
    }
    StatementsFormed(target);
    forall m | 0 <= m < 4
      ensures Has(cs, MEASURED[m]) && (Present(cs, MEASURED[m]) <==> !IsEarlyFailure(target))
    {
      StatementsMeasured(target, m);
    }
    hide Present, Has, WellStated, IsFailure, Statements, IsEarlyFailure;
    assert IsEarlyFailure(target) ==> target != Completed by {
      EarlyIsNotCompleted(target);
    }
  }

  lemma EarlyIsNotCompleted(target: Phase)
    ensures IsEarlyFailure(target) ==> target != Completed
  {
  }

  lemma StatementsFormed(target: Phase)
    ensures var cs := Statements(target);
            && cs != [] && (forall j, k :: 0 <= j < k < |cs| ==> cs[j].kind != cs[k].kind)
            && (forall k :: 0 <= k < |cs| ==> WellStated(cs[k]))
  {
    hide IsEarlyFailure;
  }

  lemma StatementsMeasured(target: Phase, m: nat)
    requires m < 4
    ensures var cs := Statements(target);
            Has(cs, MEASURED[m]) && (Present(cs, MEASURED[m]) <==> !IsEarlyFailure(target))
  {
    StatementsFormed(target);
    var cs := Statements(target);
    var action := if IsEarlyFailure(target) then DeclareAbsent else AppendComplete;
    assert cs[m + 1].kind == MEASURED[m] && cs[m + 1].action == action;
    hide WellStated, Statements, IsEarlyFailure;
    assert |cs| == 5;
  }

  function Step(target: Phase): TransitionRequest { TransitionRequest(target, 0, "x", "x", Statements(target)) }

  /** For every shape there is an accepted genesis and a run whose journal has exactly it. */
  lemma {:induction false} ShapesAreReached(phases: seq<Phase>)
    returns (context: Context, g: TransitionRequest, requests: seq<Request>)
    requires Shaped(phases)
    ensures GenesisOk(context, g) && Phases(Run(Genesis(g), requests).journal) == phases
    ensures Run(Genesis(g), requests).last == 0
    decreases |phases|
  {
    hide ConsequencesOk, Apply, Shaped, GenesisOk, Genesis, Run, Phases;
    OnlyPlanned(phases);
    if |phases| == 1 {
      requests := [];
      context, g := StartsAlone();
    } else {
      var n := |phases| - 1;
      ShapeStep(phases);
      var rest;
      context, g, rest := ShapesAreReached(phases[..n]);
      requests := rest + [Transition(Step(phases[n]))];
      OneMoreStep(context, g, rest, phases[..n], phases[n]);
      assert phases == phases[..n] + [phases[n]];
    }
  }

  lemma StartsAlone() returns (context: Context, g: TransitionRequest)
    ensures GenesisOk(context, g) && Phases(Run(Genesis(g), []).journal) == [Planned]
    ensures Run(Genesis(g), []).last == 0
  {
    hide ConsequencesOk, Statements;
    context, g := Context("a", "b", "a", "b", "c", "d"), Step(Planned);
    StatementsPass(Planned);
    assert "a"[0] != "b"[0];
  }

  lemma OneMoreStep(context: Context, g: TransitionRequest, rest: seq<Request>, phases: seq<Phase>, next: Phase)
    requires GenesisOk(context, g) && Phases(Run(Genesis(g), rest).journal) == phases
    requires phases != [] && Run(Genesis(g), rest).last == 0 && Legal(phases[|phases| - 1], next)
    ensures var m := Run(Genesis(g), rest + [Transition(Step(next))]);
            Phases(m.journal) == phases + [next] && m.last == 0
  {
    hide ConsequencesOk, Apply, GenesisOk, Genesis, Phases, Legal, Step;
    RunsKeepInvariant(context, g, rest);
    var m, requests := Run(Genesis(g), rest), rest + [Transition(Step(next))];
    LastPhase(m, phases);
    StepTaken(m, next);
    assert requests[..|requests| - 1] == rest;
  }

  lemma OnlyPlanned(phases: seq<Phase>)
    requires Shaped(phases)
    ensures phases != [] && (|phases| == 1 ==> phases == [Planned])
  {
    var k: nat :| ShapedAt(phases, k);
    assert phases[0] == phases[..k][0] == NORMAL[0];
  }

  lemma LastPhase(m: Machine, phases: seq<Phase>)
    requires Invariant(m) && Phases(m.journal) == phases
    ensures phases != [] && m.phase == phases[|phases| - 1]
  {
  }

  lemma StepTaken(m: Machine, next: Phase)
    requires Legal(m.phase, next) && m.last == 0
    ensures Phases(Apply(m, Transition(Step(next))).journal) == Phases(m.journal) + [next]
    ensures Apply(m, Transition(Step(next))).last == 0
  {
    hide ConsequencesOk, Legal, Projection, Statements;
    StatementsPass(next);
  }

  /** A shape without its last phase is a shape, and the last step is legal. */
  lemma ShapeStep(phases: seq<Phase>)
    requires Shaped(phases) && |phases| > 1
    ensures var n := |phases| - 1; Shaped(phases[..n]) && Legal(phases[n - 1], phases[n])
  {
    var n := |phases| - 1;
    var k: nat :| ShapedAt(phases, k);
    if k <= n {
      assert phases[..n][..k] == phases[..k];
      assert phases[..n][k..] == phases[k..][..n - k];
      assert ShapedAt(phases[..n], k);
      TailStep(phases, k);
    } else {
      assert phases == phases[..k];
      NormalStep(k);
      hide Legal;
      assert phases[..n] == NORMAL[..k - 1];
      assert ShapedAt(phases[..n], k - 1);
    }
  }

  lemma NormalStep(k: nat)
    requires 1 < k <= 10
    ensures Legal(NORMAL[k - 2], NORMAL[k - 1])
  {
  }

  lemma TailStep(phases: seq<Phase>, k: nat)
    requires ShapedAt(phases, k) && k < |phases|
    ensures var n := |phases| - 1; Legal(phases[n - 1], phases[n])
  {
    var n := |phases| - 1;
    assert phases[k - 1] == phases[..k][k - 1] == NORMAL[k - 1];
    assert phases[n] == phases[k..][n - k];
    if n > k {
      assert phases[n - 1] == phases[k..][n - 1 - k];
    }
  }
}
