/** The sealing and access ledger: an append-only chain of transitions that opens outcome domains. */
module Ledger {
  import opened Prelude
  import opened Pool
  import opened Sorting
  import opened Authority
  import BlockPlan

  // ---------------------------------------------------------------- records

  datatype AccessState =
    | Planned | CollectedSealed | TrainingOpen | SelectionFrozen | ValidationUnsealed
    | H3Evaluated | H1H2Released | Archived

  /** Declaration order. */
  function Rank(s: AccessState): nat {
    match s
    case Planned => 0
    case CollectedSealed => 1
    case TrainingOpen => 2
    case SelectionFrozen => 3
    case ValidationUnsealed => 4
    case H3Evaluated => 5
    case H1H2Released => 6
    case Archived => 7
  }

  datatype Kind =
    | ProtocolFreeze | SelectionFreeze | ValidationUnseal | H3Evaluation | H1H2Release
    | Amendment | ReplacementAuthorization

  datatype AuthorityRole =
    | ProtocolOwner | FreezeAuthority | ValidationCustodian | ConfirmatoryAnalyst
    | ReplacementAuthority | PlatformOperator | Author

  datatype Input = Input(artifact: Reference, accessClass: AccessClass)

  /** Checks of a record's own text, each already evaluated. */
  datatype OwnChecks = OwnChecks(
    shape: bool, selfHash: bool, selectionChecksum: bool, selectionContexts: bool)

  /**
   What opening training decides: artifacts it names by identity, and whether the orders,
   families, rules and counts it freezes are the registered ones.
   */
  datatype Decision = Decision(registered: bool, delta: string, bootstrap: string, schemas: seq<string>)

  datatype Record = Record(
    kind: Kind, id: string, sha: string, timestamp: Option<nat>, before: AccessState, after: AccessState,
    outcomeProhibited: bool, authorityId: string, authorityRole: AuthorityRole,
    affected: seq<string>, inputs: seq<Input>, trainingInputs: seq<Reference>,
    selectionRule: Option<string>, selection: Option<Reference>, unseal: Option<Reference>,
    validationArtifact: Option<Reference>, validationNamespace: Option<string>,
    evaluation: Option<Reference>, accessAudit: Option<Reference>,
    supersedes: Option<string>, priorHashes: seq<Reference>, decision: Option<Decision>, own: OwnChecks)

  datatype Environment = Environment(
    blocks: seq<PlanRecord>, artifacts: seq<Artifact>, policy: Policy,
    commonNamespace: string, bindings: seq<Binding>)

  datatype Rule =
    | PolicyFault(fault: PolicyRule) | BlockUnique | Shape | AppendOnlyId | ZeroSelfHash | Chronology | InputResolution
    | AuthorityBinding | AffectedRole | PredecessorState | ExactBlocks | TrainingEvidence
    | SelectionRule | SelectionPayload | SixContexts | TrainingOnlyInputs | TrainingInputsExact
    | ValidationNamespaceRule | ValidationSealedRule | ValidationApproval | SelectionPredecessor
    | EvaluationLineage | SealedH3 | AmendmentLineage | AmendmentPredecessor | NoOutcomes | IllegalTransition

  const SELECTION_RULE := "H3-MEAN-LOG-P999-MIN-CANDIDATE-ORDER-v1"

  function PrincipalFor(k: Kind): Option<Principal> {
    match k
    case ProtocolFreeze => Some(FreezePrincipal)
    case SelectionFreeze => Some(FreezePrincipal)
    case ValidationUnseal => Some(CustodianPrincipal)
    case H1H2Release => Some(CustodianPrincipal)
    case H3Evaluation => Some(ConfirmatoryPrincipal)
    case ReplacementAuthorization => Some(ReplacementPrincipal)
    case Amendment => None
  }

  function ProtocolRoleFor(p: Principal): Option<AuthorityRole> {
    match p
    case FreezePrincipal => Some(FreezeAuthority)
    case CustodianPrincipal => Some(ValidationCustodian)
    case ConfirmatoryPrincipal => Some(ConfirmatoryAnalyst)
    case ReplacementPrincipal => Some(ReplacementAuthority)
    case TrainingAnalyst => None
    case ValidationPrincipal => None
  }

  /** An earlier record has this identity and hash. */
  predicate RecordReference(records: seq<Record>, before: nat, ref: Reference)
    requires before <= |records|
  {
    exists k :: 0 <= k < before && records[k].id == ref.id && records[k].sha == ref.sha
  }

  predicate Resolves(env: Environment, records: seq<Record>, before: nat, ref: Reference)
    requires before <= |records|
  {
    ArtifactFor(env.artifacts, ref).Some? || RecordReference(records, before, ref)
  }

  predicate RoleAllowed(k: Kind, role: Role) {
    match k
    case SelectionFreeze => role == H3Train
    case ValidationUnseal => role == H3Validation
    case H3Evaluation => role == H3Validation
    case ReplacementAuthorization => true
    case _ => role != RoleNotApplicable
  }

  // ---------------------------------------------------------------- what one record must satisfy

  predicate AuthorityBound(env: Environment, r: Record) {
    var p := PrincipalFor(r.kind);
    p.Some? ==>
      && AssignmentFor(env.policy.assignments, p.value) == Some(r.authorityId)
      && ProtocolRoleFor(p.value) == Some(r.authorityRole)
  }

  predicate AffectedOk(env: Environment, r: Record, id: string) {
    IdIn(env.blocks, id).Some? && RoleAllowed(r.kind, IdIn(env.blocks, id).value.role)
  }

  /** The last timestamp among the first n records that could be read. */
  ghost function LastTimestamp(records: seq<Record>, n: nat): Option<nat>
    requires n <= |records|
  {
    if n == 0 then None
    else if records[n - 1].timestamp.Some? then records[n - 1].timestamp
    else LastTimestamp(records, n - 1)
  }

  ghost predicate InOrder(records: seq<Record>, i: nat)
    requires i < |records|
  {
    var last := LastTimestamp(records, i);
    records[i].timestamp.Some? && (last.Some? ==> last.value <= records[i].timestamp.value)
  }

  /** The checks common to all kinds. */
  ghost predicate CommonOk(env: Environment, records: seq<Record>, i: nat)
    requires i < |records|
  {
    var r := records[i];
    && r.own.shape && r.own.selfHash
    && (forall k :: 0 <= k < i ==> records[k].id != r.id)
    && InOrder(records, i)
    && (forall k :: 0 <= k < |r.inputs| ==> Resolves(env, records, i, r.inputs[k].artifact))
    && AuthorityBound(env, r)
    && (forall k :: 0 <= k < |r.affected| ==> AffectedOk(env, r, r.affected[k]))
  }

  /** How many inputs are training outcomes. */
  function TrainingCount(inputs: seq<Input>): nat {
    if inputs == [] then 0
    else (if inputs[0].accessClass == TrainingOnly then 1 else 0) + TrainingCount(inputs[1..])
  }

  /** An input has this artifact identity. */
  predicate NamedInput(r: Record, id: string) {
    exists k :: 0 <= k < |r.inputs| && r.inputs[k].artifact.id == id
  }

  /** The decision is complete, and everything it names is among the hashed inputs. */
  predicate DecisionOk(r: Record) {
    && r.decision.Some? && r.decision.value.registered
    && BlockPlan.Opaque(r.decision.value.delta) && BlockPlan.Opaque(r.decision.value.bootstrap)
    && SchemasOk(r.decision.value.schemas)
    && NamedInput(r, r.decision.value.delta) && NamedInput(r, r.decision.value.bootstrap)
    && (forall k :: 0 <= k < |r.decision.value.schemas| ==> NamedInput(r, r.decision.value.schemas[k]))
  }

  predicate SchemasOk(schemas: seq<string>) {
    && schemas != []
    && (forall k :: 0 <= k < |schemas| ==> BlockPlan.Opaque(schemas[k]))
    && (forall j, k :: 0 <= j < k < |schemas| ==> schemas[j] != schemas[k])
  }

  /** The transition is one its kind may make, over exactly the blocks it concerns. */
  ghost predicate Allowed(env: Environment, r: Record) {
    match r.kind
    case ProtocolFreeze =>
      && ((r.before == Planned && r.after == CollectedSealed)
          || (r.before == CollectedSealed && r.after == TrainingOpen)
          || (r.before == H1H2Released && r.after == Archived))
      && r.outcomeProhibited && r.authorityRole == FreezeAuthority
      && (r.after == TrainingOpen ==> ExactAffected(r.affected, env.blocks, Some(H3Train)) && DecisionOk(r))
      && (r.after != TrainingOpen ==> ExactAffected(r.affected, env.blocks, None))
    case SelectionFreeze =>
      && r.before == TrainingOpen && r.after == SelectionFrozen
      && ExactAffected(r.affected, env.blocks, Some(H3Train))
      && r.selectionRule == Some(SELECTION_RULE) && r.own.selectionChecksum
      && TrainingCount(r.inputs) == |r.trainingInputs|
    case ValidationUnseal =>
      && r.before == SelectionFrozen && r.after == ValidationUnsealed
      && ExactAffected(r.affected, env.blocks, Some(H3Validation))
    case H3Evaluation =>
      && r.before == ValidationUnsealed && r.after == H3Evaluated
      && ExactAffected(r.affected, env.blocks, Some(H3Validation))
    case H1H2Release =>
      && r.before == H3Evaluated && r.after == H1H2Released
      && ExactAffected(r.affected, env.blocks, None)
    case Amendment => r.before == r.after && r.outcomeProhibited
    case ReplacementAuthorization => false
  }

  predicate TrainingInputOk(env: Environment, r: Record, ref: Reference) {
    var a := ArtifactFor(env.artifacts, ref);
    && a.Some? && a.value.accessClass == TrainingOnly && a.value.role == Some(H3Train)
    && Input(ref, TrainingOnly) in r.inputs
  }

  predicate NamespaceOk(env: Environment, r: Record) {
    && r.validationNamespace.Some? && r.validationNamespace == BindingFor(env.bindings, H3Validation)
    && r.validationArtifact.Some?
  }

  predicate SealedOk(env: Environment, r: Record) {
    r.validationArtifact.Some? &&
    var a := ArtifactFor(env.artifacts, r.validationArtifact.value);
    a.Some? && a.value.accessClass == ValidationSealed && a.value.namespaceId.Some?
    && a.value.namespaceId == r.validationNamespace
  }

  /** An input issued by the validation authority. */
  predicate Approval(env: Environment, input: Input) {
    var authority := AssignmentFor(env.policy.assignments, ValidationPrincipal);
    var a := ArtifactFor(env.artifacts, input.artifact);
    && authority.Some? && a.Some?
    && a.value.issuingRole == Some(ValidationPrincipal) && a.value.issuer == authority
  }

  predicate Approved(env: Environment, r: Record) {
    exists k :: 0 <= k < |r.inputs| && Approval(env, r.inputs[k])
  }

  predicate EarlierRecord(records: seq<Record>, i: nat, ref: Option<Reference>)
    requires i <= |records|
  {
    ref.Some? && RecordReference(records, i, ref.value)
  }

  predicate KnownArtifact(env: Environment, ref: Option<Reference>) {
    ref.Some? && ArtifactFor(env.artifacts, ref.value).Some?
  }

  /** The first earlier record with an identity. */
  function FirstRecord(records: seq<Record>, i: nat, id: string): Option<nat>
    requires i <= |records|
    decreases i
  {
    if i == 0 then None
    else
      var r := FirstRecord(records, i - 1, id);
      if r.Some? then r else if records[i - 1].id == id then Some(i - 1) else None
  }

  lemma {:induction false} FirstRecordFinds(records: seq<Record>, i: nat, id: string)
    requires i <= |records|
    ensures var r := FirstRecord(records, i, id);
            && (r.Some? ==> r.value < i && records[r.value].id == id)
            && (r.None? ==> forall k :: 0 <= k < i ==> records[k].id != id)
  {
    if i > 0 {
      FirstRecordFinds(records, i - 1, id);
    }
  }

  /** The superseded record comes earlier and is named with its hash. */
  predicate SupersedesEarlier(records: seq<Record>, i: nat)
    requires i < |records| && records[i].supersedes.Some?
  {
    FirstRecordFinds(records, i, records[i].supersedes.value);
    var target := FirstRecord(records, i, records[i].supersedes.value);
    target.Some? && Reference(records[target.value].id, records[target.value].sha) in records[i].priorHashes
  }

  predicate OutcomeFree(inputs: seq<Input>) {
    forall k :: 0 <= k < |inputs| ==>
      inputs[k].accessClass != TrainingOnly && inputs[k].accessClass != ValidationUnsealedClass
  }

  /** An earlier amendment supersedes the same record. */
  ghost predicate Branched(records: seq<Record>, i: nat)
    requires i < |records|
  {
    exists k :: 0 <= k < i && records[k].kind == Amendment
      && records[k].supersedes.Some? && records[k].supersedes == records[i].supersedes
  }

  /** The evidence each kind must carry besides. */
  ghost predicate EvidenceOk(env: Environment, records: seq<Record>, i: nat)
    requires i < |records|
  {
    var r := records[i];
    match r.kind
    case SelectionFreeze =>
      && r.own.selectionContexts
      && forall k :: 0 <= k < |r.trainingInputs| ==> TrainingInputOk(env, r, r.trainingInputs[k])
    case ValidationUnseal =>
      NamespaceOk(env, r) && SealedOk(env, r) && Approved(env, r) && EarlierRecord(records, i, r.selection)
    case H3Evaluation =>
      EarlierRecord(records, i, r.selection) && EarlierRecord(records, i, r.unseal) && KnownArtifact(env, r.evaluation)
    case H1H2Release => KnownArtifact(env, r.evaluation) && KnownArtifact(env, r.accessAudit)
    case Amendment =>
      && r.supersedes.Some? && !Branched(records, i)
      && SupersedesEarlier(records, i) && OutcomeFree(r.inputs)
    case _ => true
  }

  /** The ledger's state after its first n records. */
  ghost function StateAfter(env: Environment, records: seq<Record>, n: nat): AccessState
    requires n <= |records|
  {
    if n == 0 then Planned
    else if Allowed(env, records[n - 1]) then records[n - 1].after
    else StateAfter(env, records, n - 1)
  }

  /** The record draws no error in its place. */
  ghost predicate RecordOk(env: Environment, records: seq<Record>, i: nat)
    requires i < |records|
  {
    && CommonOk(env, records, i)
    && (records[i].kind != ReplacementAuthorization ==>
          && records[i].before == StateAfter(env, records, i)
          && Allowed(env, records[i])
          && EvidenceOk(env, records, i))
  }

  /** The authority policy, the role namespaces and the block identities are in order. */
  ghost predicate EnvironmentOk(env: Environment) {
    PolicyOk(env.policy, env.artifacts) && NamespacesOk(env.commonNamespace, env.bindings) && UniqueIds(env.blocks)
  }

  ghost predicate LedgerOk(env: Environment, records: seq<Record>) {
    && EnvironmentOk(env)
    && forall i :: 0 <= i < |records| ==> RecordOk(env, records, i)
  }

  // ---------------------------------------------------------------- validation

  method FreezeErrors(env: Environment, r: Record) returns (errors: seq<Rule>, allowed: bool)
    requires r.kind == ProtocolFreeze
    ensures allowed <==> Allowed(env, r)
    ensures allowed ==> errors == []
  {
    hide ExactAffected, DecisionOk;
    errors := [];
    allowed := (r.before == Planned && r.after == CollectedSealed)
      || (r.before == CollectedSealed && r.after == TrainingOpen)
      || (r.before == H1H2Released && r.after == Archived);
    if !r.outcomeProhibited || r.authorityRole != FreezeAuthority {
      allowed := false;
    }
    var pool := ExactAffectedBlocks(r.affected, env.blocks, None);
    if r.after == CollectedSealed && !pool {
      errors := errors + [ExactBlocks];
      allowed := false;
    }
    if r.after == TrainingOpen {
      var training := ExactAffectedBlocks(r.affected, env.blocks, Some(H3Train));
      if !training {
        errors := errors + [ExactBlocks];
        allowed := false;
      }
      if !DecisionOk(r) {
        errors := errors + [TrainingEvidence];
        allowed := false;
      }
    }
    if r.after == Archived && !pool {
      errors := errors + [ExactBlocks];
      allowed := false;
    }
  }

  method SelectionErrors(env: Environment, records: seq<Record>, i: nat) returns (errors: seq<Rule>, allowed: bool)
    requires i < |records| && records[i].kind == SelectionFreeze
    ensures allowed <==> Allowed(env, records[i])
    ensures allowed && errors == [] <==> Allowed(env, records[i]) && EvidenceOk(env, records, i)
  {
    hide ExactAffected, TrainingInputOk;
    var r := records[i];
    errors := [];
    allowed := r.before == TrainingOpen && r.after == SelectionFrozen;
    var exact := ExactAffectedBlocks(r.affected, env.blocks, Some(H3Train));
    if !exact {
      errors := errors + [ExactBlocks];
      allowed := false;
    }
    if r.selectionRule != Some(SELECTION_RULE) {
      errors := errors + [SelectionRule];
      allowed := false;
    }
    if !r.own.selectionChecksum {
      errors := errors + [SelectionPayload];
      allowed := false;
    }
    ghost var hard := errors;
    if !r.own.selectionContexts {
      errors := errors + [SixContexts];
    }
    for k := 0 to |r.trainingInputs|
      invariant errors == [] <==>
        hard == [] && r.own.selectionContexts
        && forall j :: 0 <= j < k ==> TrainingInputOk(env, r, r.trainingInputs[j])
    {
      if !TrainingInputOk(env, r, r.trainingInputs[k]) {
        errors := errors + [TrainingOnlyInputs];
      }
    }
    if TrainingCount(r.inputs) != |r.trainingInputs| {
      errors := errors + [TrainingInputsExact];
      allowed := false;
    }
  }

  method UnsealErrors(env: Environment, records: seq<Record>, i: nat) returns (errors: seq<Rule>, allowed: bool)
    requires i < |records| && records[i].kind == ValidationUnseal
    ensures allowed <==> Allowed(env, records[i])
    ensures allowed && errors == [] <==> Allowed(env, records[i]) && EvidenceOk(env, records, i)
  {
    hide ExactAffected, Approved, RecordReference;
    var r := records[i];
    errors := [];
    allowed := r.before == SelectionFrozen && r.after == ValidationUnsealed;
    var exact := ExactAffectedBlocks(r.affected, env.blocks, Some(H3Validation));
    if !exact {
      errors := errors + [ExactBlocks];
      allowed := false;
    }
    if !NamespaceOk(env, r) {
      errors := errors + [ValidationNamespaceRule];
    } else if !SealedOk(env, r) {
      errors := errors + [ValidationSealedRule];
    }
    if !Approved(env, r) {
      errors := errors + [ValidationApproval];
    }
    if r.selection.None? || !RecordReference(records, i, r.selection.value) {
      errors := errors + [SelectionPredecessor];
    }
  }

  method EvaluationErrors(env: Environment, records: seq<Record>, i: nat) returns (errors: seq<Rule>, allowed: bool)
    requires i < |records| && records[i].kind == H3Evaluation
    ensures allowed <==> Allowed(env, records[i])
    ensures allowed && errors == [] <==> Allowed(env, records[i]) && EvidenceOk(env, records, i)
  {
    hide ExactAffected, RecordReference;
    var r := records[i];
    errors := [];
    allowed := r.before == ValidationUnsealed && r.after == H3Evaluated;
    var exact := ExactAffectedBlocks(r.affected, env.blocks, Some(H3Validation));
    if !exact {
      errors := errors + [ExactBlocks];
      allowed := false;
    }
    if r.selection.None? || r.unseal.None? || !RecordReference(records, i, r.selection.value)
       || !RecordReference(records, i, r.unseal.value)
       || r.evaluation.None? || ArtifactFor(env.artifacts, r.evaluation.value).None? {
      errors := errors + [EvaluationLineage];
    }
  }

  method ReleaseErrors(env: Environment, records: seq<Record>, i: nat) returns (errors: seq<Rule>, allowed: bool)
    requires i < |records| && records[i].kind == H1H2Release
    ensures allowed <==> Allowed(env, records[i])
    ensures allowed && errors == [] <==> Allowed(env, records[i]) && EvidenceOk(env, records, i)
  {
    hide ExactAffected;
    var r := records[i];
    errors := [];
    allowed := r.before == H3Evaluated && r.after == H1H2Released;
    var exact := ExactAffectedBlocks(r.affected, env.blocks, None);
    if !exact {
      errors := errors + [ExactBlocks];
      allowed := false;
    }
    if r.evaluation.None? || r.accessAudit.None? || ArtifactFor(env.artifacts, r.evaluation.value).None?
       || ArtifactFor(env.artifacts, r.accessAudit.value).None? {
      errors := errors + [SealedH3];
    }
  }

  /** The identities superseded by amendments among the first n records. */
  ghost function Targets(records: seq<Record>, n: nat): set<string>
    requires n <= |records|
  {
    set k | 0 <= k < n && records[k].kind == Amendment && records[k].supersedes.Some? :: records[k].supersedes.value
  }

  method AmendmentErrors(records: seq<Record>, i: nat, targets: set<string>)
    returns (errors: seq<Rule>, allowed: bool)
    requires i < |records| && records[i].kind == Amendment && targets == Targets(records, i)
    ensures allowed <==> records[i].before == records[i].after && records[i].outcomeProhibited
    ensures errors == [] <==>
      && records[i].supersedes.Some? && !Branched(records, i)
      && SupersedesEarlier(records, i) && OutcomeFree(records[i].inputs)
  {
    hide SupersedesEarlier, OutcomeFree;
    var r := records[i];
    errors := [];
    allowed := r.before == r.after && r.outcomeProhibited;
    BranchedIsTarget(records, i);
    hide Branched, Targets;
    if r.supersedes.None? || r.supersedes.value in targets {
      errors := errors + [AmendmentLineage];
    } else if !SupersedesEarlier(records, i) {
      errors := errors + [AmendmentPredecessor];
    }
    if !OutcomeFree(r.inputs) {
      errors := errors + [NoOutcomes];
    }
  }

  lemma BranchedIsTarget(records: seq<Record>, i: nat)
    requires i < |records|
    ensures Branched(records, i) <==>
      records[i].supersedes.Some? && records[i].supersedes.value in Targets(records, i)
  {
    if Branched(records, i) {
      var k :| 0 <= k < i && records[k].kind == Amendment
        && records[k].supersedes.Some? && records[k].supersedes == records[i].supersedes;
      assert records[k].supersedes.value in Targets(records, i);
    }
  }

  /** The checks of one kind. */
  method KindErrors(env: Environment, records: seq<Record>, i: nat, targets: set<string>)
    returns (errors: seq<Rule>, allowed: bool)
    requires i < |records| && records[i].kind != ReplacementAuthorization && targets == Targets(records, i)
    ensures allowed <==> Allowed(env, records[i])
    ensures allowed && errors == [] <==> Allowed(env, records[i]) && EvidenceOk(env, records, i)
  {
    hide ExactAffected, SupersedesEarlier, Branched, OutcomeFree, Targets;
    match records[i].kind
    case ProtocolFreeze => errors, allowed := FreezeErrors(env, records[i]);
    case SelectionFreeze => errors, allowed := SelectionErrors(env, records, i);
    case ValidationUnseal => errors, allowed := UnsealErrors(env, records, i);
    case H3Evaluation => errors, allowed := EvaluationErrors(env, records, i);
    case H1H2Release => errors, allowed := ReleaseErrors(env, records, i);
    case Amendment => errors, allowed := AmendmentErrors(records, i, targets);
  }

  ghost function RecordIds(records: seq<Record>, n: nat): set<string>
    requires n <= |records|
  {
    set k | 0 <= k < n :: records[k].id
  }

  /** The checks common to all kinds, given what the loop has collected. */
  method CommonErrors(env: Environment, records: seq<Record>, i: nat, seen: set<string>, previous: Option<nat>)
    returns (errors: seq<Rule>)
    requires i < |records| && seen == RecordIds(records, i)
    requires previous == LastTimestamp(records, i)
    ensures errors == [] <==> CommonOk(env, records, i)
  {
    hide AffectedOk, AuthorityBound;
    var r := records[i];
    errors := if r.own.shape then [] else [Shape];
    if r.id in seen {
      errors := errors + [AppendOnlyId];
    }
    if !r.own.selfHash {
      errors := errors + [ZeroSelfHash];
    }
    if r.timestamp.None? || (previous.Some? && r.timestamp.value < previous.value) {
      errors := errors + [Chronology];
    }
    if !AuthorityBound(env, r) {
      errors := errors + [AuthorityBinding];
    }
    var inputErrors := InputErrors(env, records, i);
    var affectedErrors := AffectedErrors(env, r);
    errors := errors + inputErrors + affectedErrors;
  }

  method InputErrors(env: Environment, records: seq<Record>, i: nat) returns (errors: seq<Rule>)
    requires i < |records|
    ensures errors == [] <==>
      forall k :: 0 <= k < |records[i].inputs| ==> Resolves(env, records, i, records[i].inputs[k].artifact)
  {
    hide Resolves;
    errors := [];
    var inputs := records[i].inputs;
    for k := 0 to |inputs|
      invariant errors == [] <==> forall j :: 0 <= j < k ==> Resolves(env, records, i, inputs[j].artifact)
    {
      if !Resolves(env, records, i, inputs[k].artifact) {
        errors := errors + [InputResolution];
      }
    }
  }

  method AffectedErrors(env: Environment, r: Record) returns (errors: seq<Rule>)
    ensures errors == [] <==> forall k :: 0 <= k < |r.affected| ==> AffectedOk(env, r, r.affected[k])
  {
    hide AffectedOk;
    errors := [];
    for k := 0 to |r.affected|
      invariant errors == [] <==> forall j :: 0 <= j < k ==> AffectedOk(env, r, r.affected[j])
    {
      if !AffectedOk(env, r, r.affected[k]) {
        errors := errors + [AffectedRole];
      }
    }
  }

  method BlockErrors(blocks: seq<PlanRecord>) returns (errors: seq<Rule>)
    ensures errors == [] <==> UniqueIds(blocks)
  {
    errors := [];
    var seen: set<string> := {};
    for k := 0 to |blocks|
      invariant forall id :: id in seen <==> exists j :: 0 <= j < k && blocks[j].blockId == id
      invariant errors == [] <==> forall i, j :: 0 <= i < j < k ==> blocks[i].blockId != blocks[j].blockId
    {
      if blocks[k].blockId in seen {
        errors := errors + [BlockUnique];
      }
      seen := seen + {blocks[k].blockId};
    }
  }

  /** The faults of the policy, the namespaces and the block identities. */
  method EnvironmentErrors(env: Environment) returns (errors: seq<Rule>)
    ensures errors == [] <==> EnvironmentOk(env)
  {
    hide PolicyOk, NamespacesOk, UniqueIds;
    var policyErrors := ValidateAuthorityPolicy(env.policy, env.artifacts);
    var namespaceErrors := ValidateRoleNamespaces(env.commonNamespace, env.bindings);
    var blockErrors := BlockErrors(env.blocks);
    var faults := policyErrors + namespaceErrors;
    errors := seq(|faults|, k requires 0 <= k < |faults| => PolicyFault(faults[k])) + blockErrors;
  }

  datatype LedgerResult = LedgerResult(finalState: AccessState, errors: seq<Rule>)

  /** Reads the ledger from the beginning, record by record. */
  method ValidateAccessLedger(env: Environment, records: seq<Record>) returns (result: LedgerResult)
    ensures result.finalState == StateAfter(env, records, |records|)
    ensures result.errors == [] <==> LedgerOk(env, records)
  {
    hide CommonOk, Allowed, EvidenceOk, EnvironmentOk;
    var state := Planned;
    var errors := EnvironmentErrors(env);
    var seen: set<string>, targets: set<string>, previous: Option<nat> := {}, {}, None;
    for i := 0 to |records|
      invariant state == StateAfter(env, records, i)
      invariant seen == RecordIds(records, i) && targets == Targets(records, i)
      invariant previous == LastTimestamp(records, i)
      invariant errors == [] <==>
        EnvironmentOk(env) && forall k :: 0 <= k < i ==> RecordOk(env, records, k)
    {
      var r := records[i];
      var commonErrors := CommonErrors(env, records, i, seen, previous);
      var kindErrors: seq<Rule> := [];
      var allowed := false;
      if r.kind != ReplacementAuthorization {
        if r.before != state {
          kindErrors := kindErrors + [PredecessorState];
        }
        var more;
        more, allowed := KindErrors(env, records, i, targets);
        kindErrors := kindErrors + more;
        if !allowed {
          kindErrors := kindErrors + [IllegalTransition];
        }
      } else {
        ReplacementNeverAdvances(env, r);
      }
      assert commonErrors + kindErrors == [] <==> RecordOk(env, records, i);
      state := if allowed then r.after else state;
      errors := errors + (commonErrors + kindErrors);
      seen := seen + {r.id};
      if r.kind == Amendment && r.supersedes.Some? {
        targets := targets + {r.supersedes.value};
      }
      if r.timestamp.Some? {
        previous := r.timestamp;
      }
    }
    result := LedgerResult(state, errors);
  }

  lemma ReplacementNeverAdvances(env: Environment, r: Record)
    requires r.kind == ReplacementAuthorization
    ensures !Allowed(env, r)
  {
  }

  // ---------------------------------------------------------------- selection inputs

  /** The training outcomes among a record's inputs. */
  ghost function TrainingRefs(inputs: seq<Input>): seq<Reference> {
    if inputs == [] then []
    else (if inputs[0].accessClass == TrainingOnly then [inputs[0].artifact] else []) + TrainingRefs(inputs[1..])
  }

  lemma {:induction false} TrainingCountIs(inputs: seq<Input>)
    ensures TrainingCount(inputs) == |TrainingRefs(inputs)|
  {
    if inputs != [] {
      TrainingCountIs(inputs[1..]);
    }
  }

  lemma {:induction false} TrainingRefsHold(inputs: seq<Input>, ref: Reference)
    ensures ref in TrainingRefs(inputs) <==> Input(ref, TrainingOnly) in inputs
  {
    if inputs != [] {
      TrainingRefsHold(inputs[1..], ref);
    }
  }

  /** The record consumes exactly the training outcomes it names. */
  ghost predicate ConsumesExactly(r: Record) {
    multiset(TrainingRefs(r.inputs)) == multiset(r.trainingInputs)
  }

  /** A selection freeze whose own checks all pass. */
  ghost predicate AcceptedSelection(env: Environment, records: seq<Record>, i: nat) {
    && i < |records| && records[i].kind == SelectionFreeze
    && Allowed(env, records[i]) && EvidenceOk(env, records, i)
  }

  /** What the checks give: as many names as training inputs, and every name among them. */
  lemma SelectionChecks(env: Environment, records: seq<Record>, i: nat)
    requires AcceptedSelection(env, records, i)
    ensures var r := records[i];
            && |TrainingRefs(r.inputs)| == |r.trainingInputs|
            && forall k :: 0 <= k < |r.trainingInputs| ==> r.trainingInputs[k] in TrainingRefs(r.inputs)
  {
    hide ExactAffected;
    var r := records[i];
    TrainingCountIs(r.inputs);
    forall k | 0 <= k < |r.trainingInputs| ensures r.trainingInputs[k] in TrainingRefs(r.inputs) {
      assert TrainingInputOk(env, r, r.trainingInputs[k]);
      TrainingRefsHold(r.inputs, r.trainingInputs[k]);
    }
  }

  lemma SubMultisetOfSameSize<T>(a: multiset<T>, b: multiset<T>)
    requires a <= b && |a| == |b|
    ensures a == b
  {
    assert b == a + (b - a);
  }

  /** Accepted selections consume exactly what they name if and only if none is named more often than it is an input. */
  lemma SelectionExactIff(env: Environment, records: seq<Record>, i: nat)
    requires AcceptedSelection(env, records, i)
    ensures var r := records[i];
            ConsumesExactly(r) <==> forall ref :: ref in r.trainingInputs ==>
              multiset(r.trainingInputs)[ref] <= multiset(TrainingRefs(r.inputs))[ref]
  {
    SelectionChecks(env, records, i);
    hide AcceptedSelection, TrainingRefs;
    var named, given := multiset(records[i].trainingInputs), multiset(TrainingRefs(records[i].inputs));
    if forall ref :: ref in records[i].trainingInputs ==> named[ref] <= given[ref] {
      assert named <= given by {
        forall ref | ref in named ensures named[ref] <= given[ref] {
          assert ref in records[i].trainingInputs;
        }
      }
      SubMultisetOfSameSize(named, given);
    }
  }

  /** Distinct names suffice; when the training inputs are distinct they are also necessary. */
  lemma DistinctSelectionIsExact(env: Environment, records: seq<Record>, i: nat)
    requires AcceptedSelection(env, records, i)
    ensures Distinct(records[i].trainingInputs) ==> ConsumesExactly(records[i])
    ensures Distinct(TrainingRefs(records[i].inputs)) ==>
      (ConsumesExactly(records[i]) <==> Distinct(records[i].trainingInputs))
  {
    SelectionChecks(env, records, i);
    SelectionExactIff(env, records, i);
    hide AcceptedSelection, TrainingRefs;
    var names, refs := records[i].trainingInputs, TrainingRefs(records[i].inputs);
    if Distinct(names) {
      forall ref | ref in names ensures multiset(names)[ref] <= multiset(refs)[ref] {
        DistinctOnce(names, ref);
        assert ref in multiset(refs);
      }
    }
    if Distinct(refs) && multiset(refs) == multiset(names) {
      OnceDistinct(names, refs);
    }
  }

  lemma OnceDistinct<T>(s: seq<T>, t: seq<T>)
    requires multiset(s) == multiset(t) && Distinct(t)
    ensures Distinct(s)
  {
    forall i, j | 0 <= i < j < |s| ensures s[i] != s[j] {
      DistinctOnce(t, s[i]);
      if s[i] == s[j] {
        OccursTwice(s, i, j);
        assert false;
      }
    }
  }

  /**
   Without the condition the law fails: an error-free ledger, whatever the plan of its one block,
   whose selection freeze names one training artifact twice and consumes another one that it does
   not name. Every record has inputs and every input is a known artifact.
   */
  lemma UnnamedInputIsAccepted(plan: BlockPlan.Block) returns (env: Environment, records: seq<Record>)
    ensures LedgerOk(env, records) && |records| == 3 && AcceptedSelection(env, records, 2)
    ensures env.blocks == [WitnessBlock(plan)]
    ensures forall i :: 0 <= i < 3 ==> records[i].inputs != [] && InputsKnown(env, records[i])
    ensures var r := records[2];
            exists b :: Input(b, TrainingOnly) in r.inputs && b !in r.trainingInputs
    ensures !ConsumesExactly(records[2])
  {
    hide LedgerOk, AcceptedSelection, ConsumesExactly, InputsKnown;
    var a, b := Reference("a", "ha"), Reference("b", "hb");
    assert a.id[0] != b.id[0];
    env, records := WitnessEnvironment(plan, a, b), WitnessLedger(a, b);
    WitnessInputsKnown(plan, a, b);
    WitnessIsOk(plan, a, b);
    UnnamedInput(records[2], a, b);
  }

  ghost predicate InputsKnown(env: Environment, r: Record) {
    forall k :: 0 <= k < |r.inputs| ==> ArtifactFor(env.artifacts, r.inputs[k].artifact).Some?
  }

  function WitnessBlock(plan: BlockPlan.Block): PlanRecord {
    PlanRecord("t", "p", "c", H3Train, 0, "s", None, plan)
  }

  function WitnessArtifact(ref: Reference): Artifact { Artifact(ref, TrainingOnly, None, Some(H3Train), None, None) }

  /** Public evidence: the delta, the bootstrap configuration and a schema. */
  const EVIDENCE: seq<Reference> := [Reference("d", "hd"), Reference("e", "he"), Reference("g", "hg")]

  function WitnessEvidence(ref: Reference): Artifact { Artifact(ref, PublicProtocol, None, None, None, None) }

  /** Six principals with six authorities. */
  function WitnessPolicy(): Policy {
    Policy([Assignment(FreezePrincipal, "f"), Assignment(CustodianPrincipal, "k"), Assignment(TrainingAnalyst, "l"),
            Assignment(ValidationPrincipal, "v"), Assignment(ConfirmatoryPrincipal, "x"),
            Assignment(ReplacementPrincipal, "y")], [])
  }

  function WitnessBindings(): seq<Binding> {
    [Binding(H3Train, "m", "n"), Binding(H3Validation, "o", "n"), Binding(H1H2Supplemental, "q", "n")]
  }

  /** One training block, two training artifacts, three pieces of public evidence, and everyone in place. */
  function WitnessEnvironment(plan: BlockPlan.Block, a: Reference, b: Reference): Environment {
    Environment(
      [WitnessBlock(plan)],
      [WitnessArtifact(a), WitnessArtifact(b), WitnessEvidence(EVIDENCE[0]), WitnessEvidence(EVIDENCE[1]),
       WitnessEvidence(EVIDENCE[2])],
      WitnessPolicy(), "n", WitnessBindings())
  }

  function PublicInputs(): seq<Input> {
    [Input(EVIDENCE[0], PublicProtocol), Input(EVIDENCE[1], PublicProtocol), Input(EVIDENCE[2], PublicProtocol)]
  }

  function WitnessRecord(
    kind: Kind, id: string, time: nat, before: AccessState, after: AccessState, inputs: seq<Input>,
    names: seq<Reference>, rule: Option<string>, decision: Option<Decision>): Record
  {
    Record(kind, id, "h" + id, Some(time), before, after, true, "f", FreezeAuthority, ["t"], inputs, names, rule,
           None, None, None, None, None, None, None, [], decision, OwnChecks(true, true, true, true))
  }

  function SealRecord(): Record {
    WitnessRecord(ProtocolFreeze, "1", 1, Planned, CollectedSealed, PublicInputs(), [], None, None)
  }

  function OpenRecord(): Record {
    WitnessRecord(ProtocolFreeze, "2", 2, CollectedSealed, TrainingOpen, PublicInputs(), [], None,
                  Some(Decision(true, "d", "e", ["g"])))
  }

  /** A selection that names a twice and consumes b. */
  function SelectRecord(a: Reference, b: Reference): Record {
    WitnessRecord(SelectionFreeze, "3", 3, TrainingOpen, SelectionFrozen,
                  [Input(a, TrainingOnly), Input(b, TrainingOnly)], [a, a], Some(SELECTION_RULE), None)
  }

  function WitnessLedger(a: Reference, b: Reference): seq<Record> { [SealRecord(), OpenRecord(), SelectRecord(a, b)] }

  lemma UnnamedInput(r: Record, a: Reference, b: Reference)
    requires a != b && r.inputs == [Input(a, TrainingOnly), Input(b, TrainingOnly)] && r.trainingInputs == [a, a]
    ensures Input(b, TrainingOnly) in r.inputs && b !in r.trainingInputs && !ConsumesExactly(r)
  {
    assert r.inputs[1] == Input(b, TrainingOnly);
    TrainingRefsHold(r.inputs, b);
    hide TrainingRefs;
    assert b in multiset(TrainingRefs(r.inputs));
  }

  lemma OnlyBlockAffected(block: PlanRecord)
    requires block.lineage == None && block.role == H3Train
    ensures ExactAffected([block.blockId], [block], None)
    ensures ExactAffected([block.blockId], [block], Some(H3Train))
  {
    var blocks := [block];
    assert ActiveIn(blocks, None, blocks[0]) && ActiveIn(blocks, Some(H3Train), blocks[0]);
  }

  lemma WitnessFreezes(env: Environment)
    requires ExactAffected(["t"], env.blocks, None) && ExactAffected(["t"], env.blocks, Some(H3Train))
    ensures Allowed(env, SealRecord()) && Allowed(env, OpenRecord())
  {
    hide ExactAffected;
    WitnessDecision();
    hide DecisionOk;
  }

  lemma WitnessDecision()
    ensures DecisionOk(OpenRecord())
  {
    var r := OpenRecord();
    assert r.inputs[0].artifact.id == "d" && r.inputs[1].artifact.id == "e" && r.inputs[2].artifact.id == "g";
    assert NamedInput(r, "d") && NamedInput(r, "e") && NamedInput(r, "g");
  }

  lemma WitnessSelection(env: Environment, a: Reference, b: Reference)
    requires a != b && ExactAffected(["t"], env.blocks, Some(H3Train))
    requires ArtifactFor(env.artifacts, a) == Some(WitnessArtifact(a))
    ensures Allowed(env, SelectRecord(a, b)) && TrainingInputOk(env, SelectRecord(a, b), a)
  {
    hide ExactAffected, TrainingCount;
    CountTwo(a, b);
    assert SelectRecord(a, b).inputs[0] == Input(a, TrainingOnly);
  }

  lemma CountTwo(a: Reference, b: Reference)
    ensures TrainingCount([Input(a, TrainingOnly), Input(b, TrainingOnly)]) == 2
  {
    var last := [Input(b, TrainingOnly)];
    assert last[1..] == [] && TrainingCount(last) == 1;
    var inputs := [Input(a, TrainingOnly), Input(b, TrainingOnly)];
    assert inputs[1..] == last;
  }

  /** A record of the witness ledger passes the checks common to all kinds. */
  lemma WitnessCommon(env: Environment, records: seq<Record>, i: nat)
    requires |env.blocks| == 1 && env.blocks[0].blockId == "t" && env.blocks[0].role == H3Train
    requires AssignmentFor(env.policy.assignments, FreezePrincipal) == Some("f")
    requires i < |records| && records[i].own == OwnChecks(true, true, true, true)
    requires records[i].kind == ProtocolFreeze || records[i].kind == SelectionFreeze
    requires records[i].authorityId == "f" && records[i].authorityRole == FreezeAuthority
    requires records[i].affected == ["t"]
    requires forall k :: 0 <= k < i ==> records[k].id != records[i].id
    requires records[i].timestamp == Some(i + 1) && (i > 0 ==> records[i - 1].timestamp == Some(i))
    requires InputsKnown(env, records[i])
    ensures CommonOk(env, records, i)
  {
    hide ArtifactFor;
    assert IdIn(env.blocks, "t") == Some(env.blocks[0]);
  }

  lemma WitnessIsOk(plan: BlockPlan.Block, a: Reference, b: Reference)
    requires a != b
    ensures LedgerOk(WitnessEnvironment(plan, a, b), WitnessLedger(a, b))
    ensures AcceptedSelection(WitnessEnvironment(plan, a, b), WitnessLedger(a, b), 2)
  {
    hide Allowed, TrainingInputOk, CommonOk, ArtifactFor, WitnessEnvironment, EnvironmentOk, EvidenceOk, StateAfter,
      SealRecord, OpenRecord, SelectRecord;
    var env, records := WitnessEnvironment(plan, a, b), WitnessLedger(a, b);
    WitnessAllowed(plan, a, b);
    WitnessInputs(plan, a, b);
    WitnessEnvironmentOk(plan, a, b);
    WitnessMoves(a, b);
    WitnessStates(env, records);
    WitnessSelectionEvidence(env, records, a, b);
    FreezeEvidence(env, records, 0);
    FreezeEvidence(env, records, 1);
    assert RecordOk(env, records, 0) && RecordOk(env, records, 1) && RecordOk(env, records, 2);
    hide RecordOk;
  }

  lemma WitnessMoves(a: Reference, b: Reference)
    ensures SealRecord().kind == OpenRecord().kind == ProtocolFreeze && SelectRecord(a, b).kind == SelectionFreeze
    ensures SealRecord().before == Planned && OpenRecord().before == SealRecord().after
    ensures SelectRecord(a, b).before == OpenRecord().after
  {
  }

  lemma FreezeEvidence(env: Environment, records: seq<Record>, i: nat)
    requires i < |records| && records[i].kind == ProtocolFreeze
    ensures EvidenceOk(env, records, i)
  {
  }

  lemma WitnessSelectionEvidence(env: Environment, records: seq<Record>, a: Reference, b: Reference)
    requires |records| == 3 && records[2] == SelectRecord(a, b) && TrainingInputOk(env, records[2], a)
    ensures EvidenceOk(env, records, 2)
  {
    hide TrainingInputOk;
  }

  lemma WitnessEnvironmentOk(plan: BlockPlan.Block, a: Reference, b: Reference)
    ensures EnvironmentOk(WitnessEnvironment(plan, a, b))
  {
    WitnessPolicyOk(WitnessEnvironment(plan, a, b).artifacts);
    WitnessNamespacesOk();
    hide PolicyOk, NamespacesOk, WitnessPolicy, WitnessBindings;
  }

  lemma WitnessPolicyOk(artifacts: seq<Artifact>)
    ensures PolicyOk(WitnessPolicy(), artifacts)
  {
    var all := WitnessPolicy().assignments;
    forall k | 0 <= k < 6 ensures HasPrincipal(all, PRINCIPALS[k]) {
      WitnessAssignment(k);
    }
    forall k | 0 <= k < 6 ensures BlockPlan.Opaque(all[k].authorityId) {
      WitnessAssignment(k);
    }
    forall j, k | 0 <= j < k < 6
      ensures all[j].principal != all[k].principal && all[j].authorityId != all[k].authorityId
    {
      DifferentAssignments(j, k);
    }
    hide WitnessPolicy, HasPrincipal, Permitted, BlockPlan.Opaque;
  }

  lemma WitnessAssignment(k: nat)
    requires k < 6
    ensures var a := WitnessPolicy().assignments[k];
            a.principal == PRINCIPALS[k] && BlockPlan.Opaque(a.authorityId)
  {
  }

  lemma DifferentAssignments(j: nat, k: nat)
    requires j < k < 6
    ensures var all := WitnessPolicy().assignments;
            all[j].principal != all[k].principal && all[j].authorityId != all[k].authorityId
  {
    var all := WitnessPolicy().assignments;
    assert all[j].authorityId[0] != all[k].authorityId[0];
  }

  lemma WitnessNamespacesOk()
    ensures NamespacesOk("n", WitnessBindings())
  {
    var all := WitnessBindings();
    assert all[0].role == H3Train && all[1].role == H3Validation && all[2].role == H1H2Supplemental;
    forall k | 0 <= k < 3 ensures HasBinding(all, BLOCK_ROLES[k]) {
      assert all[k].role == BLOCK_ROLES[k];
    }
    forall k | 0 <= k < 3 ensures BindingOk("n", all[k]) && all[k].namespaceId[0] != 'n' {
    }
    forall j, k | 0 <= j < k < 3 ensures all[j].namespaceId[0] != all[k].namespaceId[0] {
    }
  }

  lemma WitnessAllowed(plan: BlockPlan.Block, a: Reference, b: Reference)
    requires a != b
    ensures var env := WitnessEnvironment(plan, a, b);
            && Allowed(env, SealRecord()) && Allowed(env, OpenRecord()) && Allowed(env, SelectRecord(a, b))
            && TrainingInputOk(env, SelectRecord(a, b), a)
  {
    var env := WitnessEnvironment(plan, a, b);
    OnlyBlockAffected(env.blocks[0]);
    assert ArtifactFor(env.artifacts, a) == Some(WitnessArtifact(a));
    hide ExactAffected, Allowed, TrainingInputOk, ArtifactFor;
    WitnessFreezes(env);
    WitnessSelection(env, a, b);
  }

  lemma WitnessInputsKnown(plan: BlockPlan.Block, a: Reference, b: Reference)
    requires a != b
    ensures var env, records := WitnessEnvironment(plan, a, b), WitnessLedger(a, b);
            forall i :: 0 <= i < 3 ==> InputsKnown(env, records[i])
  {
    hide WitnessEnvironment, ArtifactFor, InputsKnown, SealRecord, OpenRecord, SelectRecord;
    var env := WitnessEnvironment(plan, a, b);
    TrainingKnown(plan, a, b);
    forall k | 0 <= k < 3 ensures ArtifactFor(env.artifacts, EVIDENCE[k]).Some? {
      EvidenceKnown(plan, a, b, k);
    }
    SelectionKnown(env, a, b);
    FreezesKnown(env);
  }

  lemma SelectionKnown(env: Environment, a: Reference, b: Reference)
    requires ArtifactFor(env.artifacts, a).Some? && ArtifactFor(env.artifacts, b).Some? && a != b
    ensures InputsKnown(env, SelectRecord(a, b))
  {
    hide ArtifactFor;
    var inputs := SelectRecord(a, b).inputs;
    assert |inputs| == 2 && inputs[0].artifact == a && inputs[1].artifact == b;
    hide SelectRecord;
  }

  lemma FreezesKnown(env: Environment)
    requires forall k :: 0 <= k < 3 ==> ArtifactFor(env.artifacts, EVIDENCE[k]).Some?
    ensures InputsKnown(env, SealRecord()) && InputsKnown(env, OpenRecord())
  {
    hide ArtifactFor;
    var inputs := PublicInputs();
    assert SealRecord().inputs == inputs && OpenRecord().inputs == inputs;
    assert |inputs| == 3 && inputs[0].artifact == EVIDENCE[0] && inputs[1].artifact == EVIDENCE[1];
    assert inputs[2].artifact == EVIDENCE[2];
    hide SealRecord, OpenRecord, PublicInputs;
  }

  lemma TrainingKnown(plan: BlockPlan.Block, a: Reference, b: Reference)
    requires a != b
    ensures var env := WitnessEnvironment(plan, a, b);
            ArtifactFor(env.artifacts, a).Some? && ArtifactFor(env.artifacts, b).Some?
  {
    var all := WitnessEnvironment(plan, a, b).artifacts;
    Listed(all, 0);
    Listed(all, 1);
    hide ArtifactFor;
  }

  lemma EvidenceKnown(plan: BlockPlan.Block, a: Reference, b: Reference, k: nat)
    requires k < 3
    ensures ArtifactFor(WitnessEnvironment(plan, a, b).artifacts, EVIDENCE[k]).Some?
  {
    var all := WitnessEnvironment(plan, a, b).artifacts;
    Listed(all, 2 + k);
    hide ArtifactFor;
    assert all[2 + k].ref == EVIDENCE[k];
  }

  lemma Listed(artifacts: seq<Artifact>, k: nat)
    requires k < |artifacts|
    ensures ArtifactFor(artifacts, artifacts[k].ref).Some?
  {
    assert artifacts[k] in artifacts;
  }

  lemma WitnessInputs(plan: BlockPlan.Block, a: Reference, b: Reference)
    requires a != b
    ensures var env, records := WitnessEnvironment(plan, a, b), WitnessLedger(a, b);
            CommonOk(env, records, 0) && CommonOk(env, records, 1) && CommonOk(env, records, 2)
  {
    var env, records := WitnessEnvironment(plan, a, b), WitnessLedger(a, b);
    assert AssignmentFor(env.policy.assignments, FreezePrincipal) == Some("f");
    WitnessInputsKnown(plan, a, b);
    hide CommonOk, ArtifactFor, AssignmentFor, InputsKnown;
    WitnessCommon(env, records, 0);
    WitnessCommon(env, records, 1);
    WitnessCommon(env, records, 2);
  }

  lemma WitnessStates(env: Environment, records: seq<Record>)
    requires |records| == 3 && Allowed(env, records[0]) && Allowed(env, records[1])
    ensures StateAfter(env, records, 0) == Planned && StateAfter(env, records, 1) == records[0].after
    ensures StateAfter(env, records, 2) == records[1].after
  {
    hide Allowed;
  }

  // ---------------------------------------------------------------- history

  /** The records that move the ledger forward. */
  predicate IsTransition(r: Record) { r.kind != Amendment && r.kind != ReplacementAuthorization }

  /** The kind of the transition out of each state. */
  function KindFrom(rank: nat): Kind {
    match rank
    case 2 => SelectionFreeze
    case 3 => ValidationUnseal
    case 4 => H3Evaluation
    case 5 => H1H2Release
    case _ => ProtocolFreeze
  }

  lemma OneStep(env: Environment, records: seq<Record>, i: nat)
    requires i < |records| && RecordOk(env, records, i)
    ensures var r := records[i];
            if IsTransition(r)
            then
              && r.before == StateAfter(env, records, i) && r.after == StateAfter(env, records, i + 1)
              && Rank(r.after) == Rank(r.before) + 1 && r.kind == KindFrom(Rank(r.before))
            else StateAfter(env, records, i + 1) == StateAfter(env, records, i)
  {
    hide CommonOk, EvidenceOk, ExactAffected;
  }

  /** The positions of the transitions among the first n records. */
  ghost function Transitions(records: seq<Record>, n: nat): seq<nat>
    requires n <= |records|
  {
    if n == 0 then []
    else Transitions(records, n - 1) + (if IsTransition(records[n - 1]) then [n - 1] else [])
  }

  /** t lists, in order, exactly the transitions among the first n, and they are the first |t| steps. */
  ghost predicate FirstSteps(records: seq<Record>, t: seq<nat>, n: nat)
    requires n <= |records|
  {
    && (forall k :: 0 <= k < |t| ==> t[k] < n && StepFrom(records[t[k]], k))
    && (forall j, k :: 0 <= j < k < |t| ==> t[j] < t[k])
    && (forall i: nat :: i < n && IsTransition(records[i]) ==> i in t)
  }

  ghost predicate StepFrom(r: Record, rank: nat) {
    && IsTransition(r) && r.kind == KindFrom(rank)
    && Rank(r.before) == rank && Rank(r.after) == rank + 1
  }

  /**
   In an error-free ledger the transitions, whatever amendments and replacement authorizations
   are interleaved, are the first steps of the protocol: one for each state left, in order.
   */
  lemma {:induction false} History(env: Environment, records: seq<Record>, n: nat)
    requires LedgerOk(env, records) && n <= |records|
    ensures |Transitions(records, n)| == Rank(StateAfter(env, records, n))
    ensures FirstSteps(records, Transitions(records, n), n)
  {
    hide RecordOk, StateAfter;
    if n == 0 {
      StartsPlanned(env, records);
    } else {
      History(env, records, n - 1);
      OneStep(env, records, n - 1);
      FirstStepsExtend(records, Transitions(records, n - 1), n - 1);
    }
  }

  lemma StartsPlanned(env: Environment, records: seq<Record>)
    ensures StateAfter(env, records, 0) == Planned
  {
  }

  lemma FirstStepsExtend(records: seq<Record>, t: seq<nat>, n: nat)
    requires n < |records| && FirstSteps(records, t, n)
    requires IsTransition(records[n]) ==> StepFrom(records[n], |t|)
    ensures FirstSteps(records, t + (if IsTransition(records[n]) then [n] else []), n + 1)
  {
    hide StepFrom;
    var u := t + (if IsTransition(records[n]) then [n] else []);
    assert forall k :: 0 <= k < |t| ==> u[k] == t[k];
    if IsTransition(records[n]) {
      assert u[|t|] == n;
    }
    forall i: nat | i < n + 1 && IsTransition(records[i]) ensures i in u {
      if i < n {
        assert i in t;
      }
    }
  }

  /** The state never goes back. */
  lemma {:induction false} NeverBack(env: Environment, records: seq<Record>, i: nat, j: nat)
    requires LedgerOk(env, records) && i <= j <= |records|
    ensures Rank(StateAfter(env, records, i)) <= Rank(StateAfter(env, records, j))
    decreases j
  {
    hide RecordOk;
    if i < j {
      NeverBack(env, records, i, j - 1);
      OneStep(env, records, j - 1);
    }
  }

  /** Timestamps never decrease. */
  lemma {:induction false} Chronological(env: Environment, records: seq<Record>, i: nat, j: nat)
    requires LedgerOk(env, records) && i <= j < |records|
    ensures records[i].timestamp.Some? && records[j].timestamp.Some?
    ensures records[i].timestamp.value <= records[j].timestamp.value
    decreases j
  {
    hide StateAfter, Allowed, EvidenceOk;
    assert RecordOk(env, records, j) && InOrder(records, j);
    if i < j {
      Chronological(env, records, i, j - 1);
    }
  }

  /**
   Amendments form unbranched chains: each supersedes exactly one earlier record, named with its
   hash, and no record is superseded twice.
   */
  lemma AmendmentChains(env: Environment, records: seq<Record>, i: nat)
    requires LedgerOk(env, records) && i < |records| && records[i].kind == Amendment
    ensures exists k :: 0 <= k < i && Some(records[k].id) == records[i].supersedes
              && Reference(records[k].id, records[k].sha) in records[i].priorHashes
    ensures forall j, k :: 0 <= j < k < |records| ==> records[j].id != records[k].id
    ensures forall j :: 0 <= j < |records| && j != i && records[j].kind == Amendment ==>
              records[j].supersedes != records[i].supersedes
  {
    hide StateAfter, Allowed, InOrder, Resolves, AuthorityBound, AffectedOk, OutcomeFree, SupersedesEarlier;
    assert RecordOk(env, records, i);
    SupersededIsEarlier(records, i);
    forall j, k | 0 <= j < k < |records| ensures records[j].id != records[k].id {
      assert RecordOk(env, records, k);
    }
    forall j | 0 <= j < |records| && j != i && records[j].kind == Amendment
      ensures records[j].supersedes != records[i].supersedes
    {
      assert RecordOk(env, records, j);
      assert !Branched(records, i) && !Branched(records, j);
    }
  }

  lemma SupersededIsEarlier(records: seq<Record>, i: nat)
    requires i < |records| && records[i].supersedes.Some? && SupersedesEarlier(records, i)
    ensures exists k :: 0 <= k < i && Some(records[k].id) == records[i].supersedes
              && Reference(records[k].id, records[k].sha) in records[i].priorHashes
  {
    FirstRecordFinds(records, i, records[i].supersedes.value);
    var k := FirstRecord(records, i, records[i].supersedes.value).value;
    assert Some(records[k].id) == records[i].supersedes;
  }

  // ---------------------------------------------------------------- outcome access

  datatype Domain = TrainingDomain | ValidationDomain | H1H2Domain

  datatype AccessRequest = AccessRequest(actorId: string, actorRole: Principal, domain: Domain, blockId: string)

  datatype Denial = LedgerNotValid | RequestIdentity | OutcomeDenied

  /** Whether an actor may see a block's outcomes in a domain. */
  function AuthorizeOutcomeAccess(
    ledger: LedgerResult, blocks: seq<PlanRecord>, assignments: seq<Assignment>, request: AccessRequest)
    : Result<bool, Denial>
  {
    if ledger.errors != [] then Err(LedgerNotValid)
    else
      var assignment := AssignmentFor(assignments, request.actorRole);
      var block := IdIn(blocks, request.blockId);
      if assignment != Some(request.actorId) || block.None? || Replaced(blocks, request.blockId)
      then Err(RequestIdentity)
      else
        var allowed :=
          match request.domain
          case TrainingDomain =>
            request.actorRole == TrainingAnalyst && block.value.role == H3Train
            && Rank(ledger.finalState) >= Rank(TrainingOpen)
          case ValidationDomain =>
            request.actorRole == ConfirmatoryPrincipal && block.value.role == H3Validation
            && Rank(ledger.finalState) >= Rank(ValidationUnsealed)
          case H1H2Domain =>
            request.actorRole == ConfirmatoryPrincipal && Rank(ledger.finalState) >= Rank(H1H2Released);
        if allowed then Ok(true) else Err(OutcomeDenied)
  }

  /** The rank of the state that opens a domain. */
  function OpeningRank(d: Domain): nat {
    match d case TrainingDomain => 2 case ValidationDomain => 4 case H1H2Domain => 6
  }

  /** The blocks a domain is about. */
  function DomainRole(d: Domain): Option<Role> {
    match d
    case TrainingDomain => Some(H3Train)
    case ValidationDomain => Some(H3Validation)
    case H1H2Domain => None
  }

  function Analyst(d: Domain): Principal {
    if d == TrainingDomain then TrainingAnalyst else ConfirmatoryPrincipal
  }

  /** The record that opened a domain and the block it names. */
  ghost predicate OpenedFor(d: Domain, r: Record, id: string) {
    StepFrom(r, OpeningRank(d) - 1) && id in r.affected
  }

  /** The opening record names exactly the domain's active blocks. */
  lemma OpeningNames(env: Environment, records: seq<Record>, i: nat, d: Domain, id: string)
    requires i < |records| && RecordOk(env, records, i) && StepFrom(records[i], OpeningRank(d) - 1)
    ensures id in records[i].affected <==> NamesActive(env.blocks, DomainRole(d), id)
  {
    hide CommonOk, EvidenceOk, NamesActive;
  }

  lemma ActiveBlock(blocks: seq<PlanRecord>, role: Option<Role>, id: string)
    requires UniqueIds(blocks)
    ensures NamesActive(blocks, role, id) <==>
      var b := IdIn(blocks, id);
      b.Some? && !Replaced(blocks, id) && InRole(b.value, role)
  {
    if NamesActive(blocks, role, id) {
      var k :| 0 <= k < |blocks| && blocks[k].blockId == id && ActiveIn(blocks, role, blocks[k]);
      IdInUnique(blocks, blocks[k]);
    }
  }

  /** A domain is reached exactly when the record that opens it is in the ledger. */
  lemma OpenedIffReached(env: Environment, records: seq<Record>, d: Domain)
    requires LedgerOk(env, records)
    ensures Rank(StateAfter(env, records, |records|)) >= OpeningRank(d) <==>
      exists i :: 0 <= i < |records| && StepFrom(records[i], OpeningRank(d) - 1)
  {
    hide RecordOk;
    var n := |records|;
    History(env, records, n);
    var t := Transitions(records, n);
    if Rank(StateAfter(env, records, n)) >= OpeningRank(d) {
      assert StepFrom(records[t[OpeningRank(d) - 1]], OpeningRank(d) - 1);
    }
    if i :| 0 <= i < n && StepFrom(records[i], OpeningRank(d) - 1) {
      OneStep(env, records, i);
      NeverBack(env, records, i + 1, n);
    }
  }

  /** Access is open: right analyst, and the block was named by the record that opened the domain. */
  ghost predicate Opened(env: Environment, records: seq<Record>, request: AccessRequest) {
    && request.actorRole == Analyst(request.domain)
    && AssignmentFor(env.policy.assignments, request.actorRole) == Some(request.actorId)
    && exists i :: 0 <= i < |records| && OpenedFor(request.domain, records[i], request.blockId)
  }

  /**
   Outcome access is granted exactly when the ledger is error-free, the actor holds the domain's
   analyst role, and the record that opened the domain named the block, which is then active.
   */
  lemma GrantedIffOpened(env: Environment, records: seq<Record>, result: LedgerResult, request: AccessRequest)
    requires result.finalState == StateAfter(env, records, |records|)
    requires result.errors == [] <==> LedgerOk(env, records)
    ensures AuthorizeOutcomeAccess(result, env.blocks, env.policy.assignments, request) == Ok(true) <==>
      LedgerOk(env, records) && Opened(env, records, request)
    ensures AuthorizeOutcomeAccess(result, env.blocks, env.policy.assignments, request) == Ok(true) ==>
      NamesActive(env.blocks, DomainRole(request.domain), request.blockId)
  {
    hide RecordOk, NamesActive, StateAfter, StepFrom, UniqueIds, PolicyOk, NamespacesOk;
    if LedgerOk(env, records) {
      var d, id := request.domain, request.blockId;
      ActiveBlock(env.blocks, DomainRole(d), id);
      OpenedIffReached(env, records, d);
      forall i | 0 <= i < |records| && StepFrom(records[i], OpeningRank(d) - 1)
        ensures OpenedFor(d, records[i], id) <==> NamesActive(env.blocks, DomainRole(d), id)
      {
        OpeningNames(env, records, i, d, id);
      }
      hide Replaced, IdIn;
      GrantedByRank(result, env, request);
    }
  }

  /**
   One authority is granted both training outcomes and later ones only with evidence that permits
   it to hold the two analyst roles.
   */
  lemma SegregatedAccess(
    env: Environment, records: seq<Record>, result: LedgerResult, early: AccessRequest, late: AccessRequest)
    requires result.finalState == StateAfter(env, records, |records|)
    requires result.errors == [] <==> LedgerOk(env, records)
    requires AuthorizeOutcomeAccess(result, env.blocks, env.policy.assignments, early) == Ok(true)
    requires AuthorizeOutcomeAccess(result, env.blocks, env.policy.assignments, late) == Ok(true)
    requires early.domain == TrainingDomain && late.domain != TrainingDomain && early.actorId == late.actorId
    ensures exists k :: 0 <= k < |env.policy.overlaps|
              && env.policy.overlaps[k].authorityId == early.actorId
              && {env.policy.overlaps[k].first, env.policy.overlaps[k].second}
                 == {TrainingAnalyst, ConfirmatoryPrincipal}
              && ArtifactFor(env.artifacts, env.policy.overlaps[k].artifact).Some?
  {
    GrantedIffOpened(env, records, result, early);
    GrantedIffOpened(env, records, result, late);
    hide AuthorizeOutcomeAccess, StateAfter, RecordOk, UniqueIds, NamespacesOk, PolicyOk, ArtifactFor, AssignmentFor;
    SharedAuthorityPermitted(env.policy, env.artifacts, TrainingAnalyst, ConfirmatoryPrincipal);
  }

  /** The decision, once the ledger is error-free. */
  lemma GrantedByRank(result: LedgerResult, env: Environment, request: AccessRequest)
    requires result.errors == [] && UniqueIds(env.blocks)
    ensures AuthorizeOutcomeAccess(result, env.blocks, env.policy.assignments, request) == Ok(true) <==>
      && request.actorRole == Analyst(request.domain)
      && AssignmentFor(env.policy.assignments, request.actorRole) == Some(request.actorId)
      && NamesActive(env.blocks, DomainRole(request.domain), request.blockId)
      && Rank(result.finalState) >= OpeningRank(request.domain)
  {
    ActiveBlock(env.blocks, DomainRole(request.domain), request.blockId);
    hide NamesActive, Replaced, UniqueIds;
  }
}
