/** What the records of an error-free ledger rest on, said of the records and the evidence alone. */
module LedgerEvidence {
  import opened Prelude
  import opened Pool
  import opened Sorting
  import opened Authority
  import opened Ledger
  import BlockPlan

  // ---------------------------------------------------------------- lookups under an accepted policy

  /** Under an accepted policy a role's authority is the one its only assignment names. */
  lemma AssignedIs(policy: Policy, artifacts: seq<Artifact>, p: Principal, holder: string)
    requires PolicyOk(policy, artifacts)
    ensures AssignmentFor(policy.assignments, p) == Some(holder) <==> Assignment(p, holder) in policy.assignments
  {
    hide Segregated, AssignmentFor;
    var k := EveryRoleHeld(policy, artifacts, p);
    assert policy.assignments[k] == Assignment(p, policy.assignments[k].authorityId);
    if Assignment(p, holder) in policy.assignments {
      var j :| 0 <= j < |policy.assignments| && policy.assignments[j] == Assignment(p, holder);
      AssignmentFound(policy.assignments, j);
    }
  }

  /** Under accepted namespaces a role's namespace is the one its only binding names. */
  lemma BoundIs(common: string, bindings: seq<Binding>, role: Role, id: string)
    requires NamespacesOk(common, bindings)
    ensures BindingFor(bindings, role) == Some(id) <==> Binding(role, id, common) in bindings
  {
    BindingIs(bindings, role, id);
    hide BindingFor;
    assert BoundOnce(common, bindings);
    if b :| b in bindings && b.role == role && b.namespaceId == id {
      var k :| 0 <= k < |bindings| && bindings[k] == b;
      assert b == Binding(role, id, common);
    }
  }

  lemma {:induction false} BindingIs(bindings: seq<Binding>, role: Role, id: string)
    requires forall j, k :: 0 <= j < k < |bindings| ==> bindings[j].role != bindings[k].role
    ensures BindingFor(bindings, role) == Some(id) <==>
      exists b :: b in bindings && b.role == role && b.namespaceId == id
  {
    if bindings != [] {
      BindingIs(bindings[1..], role, id);
      assert bindings == [bindings[0]] + bindings[1..];
      forall b | b in bindings[1..] ensures b.role != bindings[0].role {
        var k :| 0 <= k < |bindings[1..]| && bindings[1..][k] == b;
        assert bindings[k + 1] == b;
      }
    }
  }

  /** Position k holds the first artifact listed with this identity and hash. */
  ghost predicate FirstAt(artifacts: seq<Artifact>, ref: Reference, k: nat) {
    k < |artifacts| && artifacts[k].ref == ref && forall j :: 0 <= j < k ==> artifacts[j].ref != ref
  }

  /** An artifact is looked up by identity and hash, and the first one listed counts. */
  lemma {:induction false} ArtifactIs(artifacts: seq<Artifact>, ref: Reference, k: nat)
    requires FirstAt(artifacts, ref, k)
    ensures ArtifactFor(artifacts, ref) == Some(artifacts[k])
  {
    if k > 0 {
      assert artifacts[0].ref != ref;
      ArtifactIs(artifacts[1..], ref, k - 1);
    }
  }

  /** A reference to an earlier record, by identity and hash. */
  ghost predicate LinksEarlier(records: seq<Record>, i: nat, ref: Option<Reference>)
    requires i <= |records|
  {
    exists k :: 0 <= k < i && ref == Some(Reference(records[k].id, records[k].sha))
  }

  lemma LinkIs(records: seq<Record>, i: nat, ref: Option<Reference>)
    requires i <= |records|
    ensures EarlierRecord(records, i, ref) <==> LinksEarlier(records, i, ref)
  {
    if EarlierRecord(records, i, ref) {
      var k :| 0 <= k < i && records[k].id == ref.value.id && records[k].sha == ref.value.sha;
      assert ref == Some(Reference(records[k].id, records[k].sha));
    }
  }

  // ---------------------------------------------------------------- every record

  /** The role that signs each kind of record, and the title it signs with; amendments may be anyone's. */
  ghost predicate SignedBy(policy: Policy, r: Record, p: Principal, title: AuthorityRole) {
    Assignment(p, r.authorityId) in policy.assignments && r.authorityRole == title
  }

  /**
   Every record of an error-free ledger is new, well formed and bound by its own hash; every input is
   a known artifact or an earlier record; and its signer holds the role its kind needs.
   */
  lemma EveryRecord(env: Environment, records: seq<Record>, i: nat)
    requires LedgerOk(env, records) && i < |records|
    ensures var r := records[i];
            && r.own.shape && r.own.selfHash
            && (forall k :: 0 <= k < |records| && k != i ==> records[k].id != r.id)
            && (forall input :: input in r.inputs ==>
                  || (exists a :: a in env.artifacts && a.ref == input.artifact)
                  || LinksEarlier(records, i, Some(input.artifact)))
            && (r.kind == ProtocolFreeze || r.kind == SelectionFreeze ==>
                  SignedBy(env.policy, r, FreezePrincipal, FreezeAuthority))
            && (r.kind == ValidationUnseal || r.kind == H1H2Release ==>
                  SignedBy(env.policy, r, CustodianPrincipal, ValidationCustodian))
            && (r.kind == H3Evaluation ==> SignedBy(env.policy, r, ConfirmatoryPrincipal, ConfirmatoryAnalyst))
            && (r.kind == ReplacementAuthorization ==>
                  SignedBy(env.policy, r, ReplacementPrincipal, ReplacementAuthority))
  {
    hide PolicyOk, NamespacesOk, UniqueIds, StateAfter, Allowed, EvidenceOk, InOrder, AffectedOk;
    assert RecordOk(env, records, i);
    forall k | 0 <= k < |records| && k != i ensures records[k].id != records[i].id {
      assert RecordOk(env, records, k);
    }
    forall input | input in records[i].inputs
      ensures (exists a :: a in env.artifacts && a.ref == input.artifact)
           || LinksEarlier(records, i, Some(input.artifact))
    {
      InputResolves(env, records, i, input);
    }
    Signed(env, records[i]);
  }

  lemma InputResolves(env: Environment, records: seq<Record>, i: nat, input: Input)
    requires i < |records| && CommonOk(env, records, i) && input in records[i].inputs
    ensures (exists a :: a in env.artifacts && a.ref == input.artifact)
         || LinksEarlier(records, i, Some(input.artifact))
  {
    hide InOrder, AuthorityBound, AffectedOk;
    var k :| 0 <= k < |records[i].inputs| && records[i].inputs[k] == input;
    assert Resolves(env, records, i, records[i].inputs[k].artifact);
    LinkIs(records, i, Some(input.artifact));
  }

  lemma Signed(env: Environment, r: Record)
    requires PolicyOk(env.policy, env.artifacts) && AuthorityBound(env, r)
    ensures r.kind == ProtocolFreeze || r.kind == SelectionFreeze ==>
      SignedBy(env.policy, r, FreezePrincipal, FreezeAuthority)
    ensures r.kind == ValidationUnseal || r.kind == H1H2Release ==>
      SignedBy(env.policy, r, CustodianPrincipal, ValidationCustodian)
    ensures r.kind == H3Evaluation ==> SignedBy(env.policy, r, ConfirmatoryPrincipal, ConfirmatoryAnalyst)
    ensures r.kind == ReplacementAuthorization ==>
      SignedBy(env.policy, r, ReplacementPrincipal, ReplacementAuthority)
  {
    hide PolicyOk, AssignmentFor;
    AssignedIs(env.policy, env.artifacts, FreezePrincipal, r.authorityId);
    AssignedIs(env.policy, env.artifacts, CustodianPrincipal, r.authorityId);
    AssignedIs(env.policy, env.artifacts, ConfirmatoryPrincipal, r.authorityId);
    AssignedIs(env.policy, env.artifacts, ReplacementPrincipal, r.authorityId);
  }

  /** Selections touch training blocks, unseals and evaluations validation blocks, the rest any pooled block. */
  ghost predicate MayTouch(kind: Kind, role: Role) {
    && (kind == SelectionFreeze ==> role == H3Train)
    && (kind == ValidationUnseal || kind == H3Evaluation ==> role == H3Validation)
    && (kind != ReplacementAuthorization ==> role != RoleNotApplicable)
  }

  /** Every block a record names is in the pool with a role its kind may touch. */
  lemma EveryAffected(env: Environment, records: seq<Record>, i: nat, id: string)
    requires LedgerOk(env, records) && i < |records| && id in records[i].affected
    ensures exists b :: b in env.blocks && b.blockId == id && MayTouch(records[i].kind, b.role)
  {
    hide PolicyOk, NamespacesOk, UniqueIds, StateAfter, Allowed, EvidenceOk, InOrder, Resolves, AuthorityBound;
    assert RecordOk(env, records, i);
    var k :| 0 <= k < |records[i].affected| && records[i].affected[k] == id;
    assert AffectedOk(env, records[i], records[i].affected[k]);
  }

  // ---------------------------------------------------------------- the evidence of each kind

  /** An input is an artifact that the holder of the validation authority issued in that role. */
  ghost predicate ApprovedBy(env: Environment, r: Record, input: Input, holder: string) {
    && input in r.inputs && Assignment(ValidationPrincipal, holder) in env.policy.assignments
    && exists a :: ArtifactFor(env.artifacts, input.artifact) == Some(a)
         && a.issuingRole == Some(ValidationPrincipal) && a.issuer == Some(holder)
  }

  /**
   An unseal passes exactly when it leaves the frozen selection over exactly the active validation blocks; the
   validation authority has approved it; its artifact is sealed in the namespace bound to validation; and it
   links an earlier record as its selection.
   */
  lemma UnsealIff(env: Environment, records: seq<Record>, i: nat)
    requires EnvironmentOk(env) && i < |records| && records[i].kind == ValidationUnseal
    ensures var r := records[i];
            Allowed(env, r) && EvidenceOk(env, records, i) <==>
              && r.before == SelectionFrozen && r.after == ValidationUnsealed
              && ExactAffected(r.affected, env.blocks, Some(H3Validation))
              && (exists input, holder :: ApprovedBy(env, r, input, holder))
              && (exists id :: r.validationNamespace == Some(id)
                    && Binding(H3Validation, id, env.commonNamespace) in env.bindings)
              && (exists ref, a :: r.validationArtifact == Some(ref) && ArtifactFor(env.artifacts, ref) == Some(a)
                    && a.accessClass == ValidationSealed && a.namespaceId == r.validationNamespace)
              && LinksEarlier(records, i, r.selection)
  {
    hide ExactAffected, PolicyOk, NamespacesOk, UniqueIds, LinksEarlier, EarlierRecord;
    var r := records[i];
    LinkIs(records, i, r.selection);
    ApprovedIs(env, r);
    hide Approved, ApprovedBy;
    if r.validationNamespace.Some? {
      BoundIs(env.commonNamespace, env.bindings, H3Validation, r.validationNamespace.value);
    }
    hide ArtifactFor, BindingFor;
  }

  lemma ApprovedIs(env: Environment, r: Record)
    requires PolicyOk(env.policy, env.artifacts)
    ensures Approved(env, r) <==> exists input, holder :: ApprovedBy(env, r, input, holder)
  {
    hide PolicyOk, AssignmentFor, ArtifactFor;
    if Approved(env, r) {
      var k :| 0 <= k < |r.inputs| && Approval(env, r.inputs[k]);
      var holder := AssignmentFor(env.policy.assignments, ValidationPrincipal).value;
      AssignedIs(env.policy, env.artifacts, ValidationPrincipal, holder);
      assert ApprovedBy(env, r, r.inputs[k], holder);
    }
    if input, holder :| ApprovedBy(env, r, input, holder) {
      AssignedIs(env.policy, env.artifacts, ValidationPrincipal, holder);
      var k :| 0 <= k < |r.inputs| && r.inputs[k] == input;
      assert Approval(env, r.inputs[k]);
    }
  }

  /** An evaluation passes exactly when it links two earlier records and a known artifact. */
  lemma EvaluationIff(env: Environment, records: seq<Record>, i: nat)
    requires i < |records| && records[i].kind == H3Evaluation
    ensures var r := records[i];
            Allowed(env, r) && EvidenceOk(env, records, i) <==>
              && r.before == ValidationUnsealed && r.after == H3Evaluated
              && ExactAffected(r.affected, env.blocks, Some(H3Validation))
              && LinksEarlier(records, i, r.selection) && LinksEarlier(records, i, r.unseal)
              && (exists a :: a in env.artifacts && r.evaluation == Some(a.ref))
  {
    hide ExactAffected, LinksEarlier, EarlierRecord;
    var r := records[i];
    LinkIs(records, i, r.selection);
    LinkIs(records, i, r.unseal);
    KnownIs(env, r.evaluation);
    hide KnownArtifact;
  }

  lemma KnownIs(env: Environment, ref: Option<Reference>)
    ensures KnownArtifact(env, ref) <==> exists a :: a in env.artifacts && ref == Some(a.ref)
  {
  }

  /** A release passes exactly when the evaluation and the access audit are known artifacts. */
  lemma ReleaseIff(env: Environment, records: seq<Record>, i: nat)
    requires i < |records| && records[i].kind == H1H2Release
    ensures var r := records[i];
            Allowed(env, r) && EvidenceOk(env, records, i) <==>
              && r.before == H3Evaluated && r.after == H1H2Released
              && ExactAffected(r.affected, env.blocks, None)
              && (exists a :: a in env.artifacts && r.evaluation == Some(a.ref))
              && (exists a :: a in env.artifacts && r.accessAudit == Some(a.ref))
  {
    hide ExactAffected;
    KnownIs(env, records[i].evaluation);
    KnownIs(env, records[i].accessAudit);
    hide KnownArtifact;
  }

  /** The places of a record's inputs that are training outcomes. */
  ghost function TrainingPlaces(r: Record): set<nat> {
    set k: nat | k < |r.inputs| && r.inputs[k].accessClass == TrainingOnly
  }

  /**
   A selection passes exactly when it freezes the registered rule with its checksum and contexts over exactly
   the active training blocks, every artifact it names is a training artifact of the training role and one of
   its training inputs, and it has as many training inputs as names.
   */
  lemma SelectionIff(env: Environment, records: seq<Record>, i: nat)
    requires i < |records| && records[i].kind == SelectionFreeze
    ensures var r := records[i];
            Allowed(env, r) && EvidenceOk(env, records, i) <==>
              && r.before == TrainingOpen && r.after == SelectionFrozen
              && ExactAffected(r.affected, env.blocks, Some(H3Train))
              && r.selectionRule == Some("H3-MEAN-LOG-P999-MIN-CANDIDATE-ORDER-v1")
              && r.own.selectionChecksum && r.own.selectionContexts
              && (forall ref :: ref in r.trainingInputs ==>
                    && Input(ref, TrainingOnly) in r.inputs
                    && exists a :: ArtifactFor(env.artifacts, ref) == Some(a)
                         && a.accessClass == TrainingOnly && a.role == Some(H3Train))
              && |TrainingPlaces(r)| == |r.trainingInputs|
  {
    hide ExactAffected, ArtifactFor;
    var r := records[i];
    CountIs(r);
    hide TrainingPlaces, TrainingCount;
    NamedTraining(env, r);
    hide TrainingInputOk;
  }

  lemma NamedTraining(env: Environment, r: Record)
    ensures (forall k :: 0 <= k < |r.trainingInputs| ==> TrainingInputOk(env, r, r.trainingInputs[k])) <==>
      forall ref :: ref in r.trainingInputs ==>
        && Input(ref, TrainingOnly) in r.inputs
        && exists a :: ArtifactFor(env.artifacts, ref) == Some(a)
             && a.accessClass == TrainingOnly && a.role == Some(H3Train)
  {
    hide ArtifactFor;
    forall ref
      ensures TrainingInputOk(env, r, ref) <==>
        && Input(ref, TrainingOnly) in r.inputs
        && exists a :: ArtifactFor(env.artifacts, ref) == Some(a)
             && a.accessClass == TrainingOnly && a.role == Some(H3Train)
    {
    }
    hide TrainingInputOk;
  }

  lemma CountIs(r: Record)
    ensures TrainingCount(r.inputs) == |TrainingPlaces(r)|
  {
    CountIsCount(r.inputs);
    CountIfIsPositions(IsTraining, r.inputs);
    assert TrainingPlaces(r) == Positions(IsTraining, r.inputs);
  }

  predicate IsTraining(input: Input) { input.accessClass == TrainingOnly }

  lemma {:induction false} CountIsCount(inputs: seq<Input>)
    ensures TrainingCount(inputs) == CountIf(IsTraining, inputs)
  {
    if inputs != [] {
      CountIsCount(inputs[1..]);
    }
  }

  /** An artifact of this identity is among the record's inputs. */
  ghost predicate HasInput(r: Record, id: string) { exists input :: input in r.inputs && input.artifact.id == id }

  lemma NamedIs(r: Record, id: string)
    ensures NamedInput(r, id) <==> HasInput(r, id)
  {
    if HasInput(r, id) {
      var input :| input in r.inputs && input.artifact.id == id;
      var k :| 0 <= k < |r.inputs| && r.inputs[k] == input;
    }
  }

  /**
   A protocol freeze passes exactly when it is one of three: sealing or archiving the whole active pool, or
   opening training over exactly the active training blocks with a registered decision that names its delta, its
   bootstrap and one or more different schemas, all of them inputs of the record.
   */
  lemma FreezeIff(env: Environment, r: Record)
    requires r.kind == ProtocolFreeze
    ensures Allowed(env, r) <==>
      && r.outcomeProhibited && r.authorityRole == FreezeAuthority
      && (|| (r.before == Planned && r.after == CollectedSealed && ExactAffected(r.affected, env.blocks, None))
          || (r.before == H1H2Released && r.after == Archived && ExactAffected(r.affected, env.blocks, None))
          || (r.before == CollectedSealed && r.after == TrainingOpen
              && ExactAffected(r.affected, env.blocks, Some(H3Train))
              && r.decision.Some? && Decided(r, r.decision.value)))
  {
    hide ExactAffected;
    DecisionIs(r);
    hide DecisionOk, Decided;
  }

  ghost predicate Decided(r: Record, d: Decision) {
    && d.registered && d.schemas != []
    && (forall j, k :: 0 <= j < k < |d.schemas| ==> d.schemas[j] != d.schemas[k])
    && (forall id :: id == d.delta || id == d.bootstrap || id in d.schemas ==>
          HasInput(r, id) && id != "" && '/' !in id && '\\' !in id)
  }

  lemma DecisionIs(r: Record)
    ensures DecisionOk(r) <==> r.decision.Some? && Decided(r, r.decision.value)
  {
    if r.decision.Some? {
      var d := r.decision.value;
      forall id ensures NamedInput(r, id) <==> HasInput(r, id) {
        NamedIs(r, id);
      }
      hide NamedInput, HasInput;
      if DecisionOk(r) {
        forall id | id in d.schemas ensures HasInput(r, id) && BlockPlan.Opaque(id) {
          var k :| 0 <= k < |d.schemas| && d.schemas[k] == id;
        }
      }
      if Decided(r, d) {
        forall k | 0 <= k < |d.schemas| ensures HasInput(r, d.schemas[k]) && BlockPlan.Opaque(d.schemas[k]) {
          assert d.schemas[k] in d.schemas;
        }
      }
    }
  }

  /**
   An amendment passes exactly when it keeps the state, sees no outcomes, names an earlier record by identity and
   hash, and no earlier amendment supersedes the same one.
   */
  lemma AmendmentIff(env: Environment, records: seq<Record>, i: nat)
    requires i < |records| && records[i].kind == Amendment
    requires forall j, k :: 0 <= j < k < i ==> records[j].id != records[k].id
    ensures var r := records[i];
            Allowed(env, r) && EvidenceOk(env, records, i) <==>
              && r.before == r.after && r.outcomeProhibited
              && (forall input :: input in r.inputs ==>
                    input.accessClass != TrainingOnly && input.accessClass != ValidationUnsealedClass)
              && (exists k :: 0 <= k < i && r.supersedes == Some(records[k].id)
                    && Reference(records[k].id, records[k].sha) in r.priorHashes)
              && (forall k :: 0 <= k < i && records[k].kind == Amendment ==> records[k].supersedes != r.supersedes)
  {
    var r := records[i];
    OutcomesAbsent(r.inputs);
    hide OutcomeFree;
    if r.supersedes.Some? {
      EarlierIs(records, i);
    }
    hide SupersedesEarlier;
  }

  lemma OutcomesAbsent(inputs: seq<Input>)
    ensures OutcomeFree(inputs) <==> forall input :: input in inputs ==>
      input.accessClass != TrainingOnly && input.accessClass != ValidationUnsealedClass
  {
    if OutcomeFree(inputs) {
      forall input | input in inputs
        ensures input.accessClass != TrainingOnly && input.accessClass != ValidationUnsealedClass
      {
        var k :| 0 <= k < |inputs| && inputs[k] == input;
      }
    }
  }

  lemma EarlierIs(records: seq<Record>, i: nat)
    requires i < |records| && records[i].supersedes.Some?
    requires forall j, k :: 0 <= j < k < i ==> records[j].id != records[k].id
    ensures SupersedesEarlier(records, i) <==>
      exists k :: 0 <= k < i && records[i].supersedes == Some(records[k].id)
        && Reference(records[k].id, records[k].sha) in records[i].priorHashes
  {
    FirstRecordFinds(records, i, records[i].supersedes.value);
  }

  // ---------------------------------------------------------------- what access rests on

  /** The transition out of the state of this rank, before a later one. */
  lemma EarlierStep(env: Environment, records: seq<Record>, i: nat, rank: nat, earlier: nat) returns (j: nat)
    requires LedgerOk(env, records) && i < |records| && StepFrom(records[i], rank) && earlier < rank
    ensures j < i && StepFrom(records[j], earlier)
  {
    hide RecordOk, StepFrom, StateAfter;
    var n := |records|;
    History(env, records, n);
    var t := Transitions(records, n);
    StepIsTransition(records[i], rank);
    assert i in t;
    var k :| 0 <= k < |t| && t[k] == i;
    StepRank(records[i], rank, k);
    j := t[earlier];
    assert StepFrom(records[t[earlier]], earlier);
  }

  lemma StepIsTransition(r: Record, rank: nat)
    requires StepFrom(r, rank)
    ensures IsTransition(r)
  {
  }

  lemma StepRank(r: Record, j: nat, k: nat)
    requires StepFrom(r, j) && StepFrom(r, k)
    ensures j == k
  {
  }

  /**
   Whoever is granted validation outcomes is the assigned confirmatory analyst, and the block was named by an
   unseal that the assigned custodian signed, that an artifact of the assigned validation authority approved,
   whose own artifact is sealed in the validation namespace, and that comes after the selection was frozen.
   */
  lemma ValidationAccess(env: Environment, records: seq<Record>, result: LedgerResult, request: AccessRequest)
    returns (s: nat, u: nat, input: Input, approval: Artifact, holder: string)
    requires result.finalState == StateAfter(env, records, |records|)
    requires result.errors == [] <==> LedgerOk(env, records)
    requires AuthorizeOutcomeAccess(result, env.blocks, env.policy.assignments, request) == Ok(true)
    requires request.domain == ValidationDomain
    ensures Assignment(ConfirmatoryPrincipal, request.actorId) in env.policy.assignments
    ensures s < u < |records| && records[s].kind == SelectionFreeze && records[u].kind == ValidationUnseal
    ensures request.blockId in records[u].affected
    ensures SignedBy(env.policy, records[u], CustodianPrincipal, ValidationCustodian)
    ensures input in records[u].inputs && ArtifactFor(env.artifacts, input.artifact) == Some(approval)
    ensures approval.issuingRole == Some(ValidationPrincipal) && approval.issuer == Some(holder)
    ensures Assignment(ValidationPrincipal, holder) in env.policy.assignments
    ensures exists ref, a, id :: records[u].validationArtifact == Some(ref)
              && ArtifactFor(env.artifacts, ref) == Some(a) && a.accessClass == ValidationSealed
              && a.namespaceId == Some(id) && Binding(H3Validation, id, env.commonNamespace) in env.bindings
  {
    hide RecordOk, StateAfter, PolicyOk, NamespacesOk, UniqueIds, AssignmentFor, ArtifactFor, AuthorizeOutcomeAccess;
    GrantedIffOpened(env, records, result, request);
    AssignedIs(env.policy, env.artifacts, ConfirmatoryPrincipal, request.actorId);
    u :| 0 <= u < |records| && OpenedFor(ValidationDomain, records[u], request.blockId);
    s := EarlierStep(env, records, u, 3, 2);
    EveryRecord(env, records, u);
    RecordPasses(env, records, u);
    UnsealIff(env, records, u);
    hide SignedBy, Allowed, EvidenceOk, LinksEarlier, ExactAffected;
    input, holder :| ApprovedBy(env, records[u], input, holder);
    approval :| ArtifactFor(env.artifacts, input.artifact) == Some(approval)
      && approval.issuingRole == Some(ValidationPrincipal) && approval.issuer == Some(holder);
  }

  lemma RecordPasses(env: Environment, records: seq<Record>, i: nat)
    requires LedgerOk(env, records) && i < |records| && records[i].kind != ReplacementAuthorization
    ensures Allowed(env, records[i]) && EvidenceOk(env, records, i)
  {
    hide EnvironmentOk, CommonOk, StateAfter, Allowed, EvidenceOk;
    assert RecordOk(env, records, i);
  }

  /**
   Whoever is granted H1 and H2 outcomes is the assigned confirmatory analyst, and the block was named by a
   release that the assigned custodian signed with a known evaluation and a known access audit, after an
   evaluation that the assigned confirmatory analyst signed, after the unseal.
   */
  lemma ReleasedAccess(env: Environment, records: seq<Record>, result: LedgerResult, request: AccessRequest)
    returns (u: nat, e: nat, x: nat)
    requires result.finalState == StateAfter(env, records, |records|)
    requires result.errors == [] <==> LedgerOk(env, records)
    requires AuthorizeOutcomeAccess(result, env.blocks, env.policy.assignments, request) == Ok(true)
    requires request.domain == H1H2Domain
    ensures Assignment(ConfirmatoryPrincipal, request.actorId) in env.policy.assignments
    ensures u < e < x < |records| && records[u].kind == ValidationUnseal
    ensures records[e].kind == H3Evaluation && records[x].kind == H1H2Release
    ensures request.blockId in records[x].affected
    ensures SignedBy(env.policy, records[x], CustodianPrincipal, ValidationCustodian)
    ensures SignedBy(env.policy, records[e], ConfirmatoryPrincipal, ConfirmatoryAnalyst)
    ensures (exists a :: a in env.artifacts && records[x].evaluation == Some(a.ref))
         && (exists a :: a in env.artifacts && records[x].accessAudit == Some(a.ref))
    ensures LinksEarlier(records, e, records[e].selection) && LinksEarlier(records, e, records[e].unseal)
  {
    hide RecordOk, StateAfter, PolicyOk, NamespacesOk, UniqueIds, AssignmentFor, ArtifactFor, AuthorizeOutcomeAccess;
    GrantedIffOpened(env, records, result, request);
    AssignedIs(env.policy, env.artifacts, ConfirmatoryPrincipal, request.actorId);
    x :| 0 <= x < |records| && OpenedFor(H1H2Domain, records[x], request.blockId);
    e := EarlierStep(env, records, x, 5, 4);
    u := EarlierStep(env, records, e, 4, 3);
    EveryRecord(env, records, x);
    EveryRecord(env, records, e);
    RecordPasses(env, records, x);
    RecordPasses(env, records, e);
    hide SignedBy, Allowed, EvidenceOk, LinksEarlier, ExactAffected;
    ReleaseIff(env, records, x);
    EvaluationIff(env, records, e);
  }

  /** Whoever is granted training outcomes is the assigned training analyst, and a registered decision opened them. */
  lemma TrainingAccess(env: Environment, records: seq<Record>, result: LedgerResult, request: AccessRequest)
    returns (o: nat)
    requires result.finalState == StateAfter(env, records, |records|)
    requires result.errors == [] <==> LedgerOk(env, records)
    requires AuthorizeOutcomeAccess(result, env.blocks, env.policy.assignments, request) == Ok(true)
    requires request.domain == TrainingDomain
    ensures Assignment(TrainingAnalyst, request.actorId) in env.policy.assignments
    ensures o < |records| && records[o].kind == ProtocolFreeze && request.blockId in records[o].affected
    ensures SignedBy(env.policy, records[o], FreezePrincipal, FreezeAuthority)
    ensures records[o].decision.Some? && Decided(records[o], records[o].decision.value)
  {
    hide RecordOk, StateAfter, PolicyOk, NamespacesOk, UniqueIds, AssignmentFor, ArtifactFor, AuthorizeOutcomeAccess;
    GrantedIffOpened(env, records, result, request);
    AssignedIs(env.policy, env.artifacts, TrainingAnalyst, request.actorId);
    o :| 0 <= o < |records| && OpenedFor(TrainingDomain, records[o], request.blockId);
    EveryRecord(env, records, o);
    RecordPasses(env, records, o);
    hide SignedBy, Allowed, EvidenceOk, LinksEarlier, ExactAffected, Decided;
    FreezeIff(env, records[o]);
  }
}
