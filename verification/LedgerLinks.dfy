/** Which records an unseal and an evaluation link: what the checks give, and what they leave open. */
module LedgerLinks {
  import opened Prelude
  import opened Pool
  import opened Sorting
  import opened Authority
  import opened Ledger
  import opened LedgerEvidence
  import BlockPlan

  /**
   In an error-free ledger a link names a given earlier record exactly when it has that record's identity: the
   hash then agrees, because the link resolves and identities are unique.
   */
  lemma LinkNamesIff(env: Environment, records: seq<Record>, i: nat, j: nat, ref: Reference)
    requires LedgerOk(env, records) && j < i < |records| && LinksEarlier(records, i, Some(ref))
    ensures ref == Reference(records[j].id, records[j].sha) <==> ref.id == records[j].id
  {
    EveryRecord(env, records, j);
    hide LedgerOk, SignedBy;
    var k :| 0 <= k < i && Some(ref) == Some(Reference(records[k].id, records[k].sha));
  }

  /**
   An unseal comes after a selection freeze, and it links that freeze if and only if its selection reference has
   the freeze's identity; the checks do not look at the kind of the record it links.
   */
  lemma UnsealLinksSelectionIff(env: Environment, records: seq<Record>, u: nat) returns (s: nat)
    requires LedgerOk(env, records) && u < |records| && records[u].kind == ValidationUnseal
    ensures s < u && records[s].kind == SelectionFreeze && records[u].selection.Some?
    ensures forall k :: 0 <= k < |records| && records[k].kind == SelectionFreeze ==> k == s
    ensures records[u].selection == Some(Reference(records[s].id, records[s].sha)) <==>
      records[u].selection.value.id == records[s].id
  {
    hide RecordOk, StateAfter, PolicyOk, NamespacesOk, UniqueIds, Allowed, EvidenceOk;
    OneStepRank(env, records, u);
    s := EarlierStep(env, records, u, 3, 2);
    forall k | 0 <= k < |records| && records[k].kind == SelectionFreeze ensures k == s {
      OneStepRank(env, records, k);
      OneStepEach(env, records, k, s, 2);
    }
    RecordPasses(env, records, u);
    UnsealIff(env, records, u);
    hide ExactAffected, ApprovedBy;
    LinkNamesIff(env, records, u, s, records[u].selection.value);
  }

  lemma OneStepRank(env: Environment, records: seq<Record>, i: nat)
    requires LedgerOk(env, records) && i < |records|
    ensures records[i].kind == ValidationUnseal ==> StepFrom(records[i], 3)
    ensures records[i].kind == SelectionFreeze ==> StepFrom(records[i], 2)
  {
    hide PolicyOk, NamespacesOk, UniqueIds, StateAfter, CommonOk, EvidenceOk, ExactAffected;
    assert RecordOk(env, records, i);
    OneStep(env, records, i);
  }

  /** Each step of the protocol is taken at most once. */
  lemma OneStepEach(env: Environment, records: seq<Record>, i: nat, j: nat, rank: nat)
    requires LedgerOk(env, records) && i < |records| && j < |records|
    requires StepFrom(records[i], rank) && StepFrom(records[j], rank)
    ensures i == j
  {
    hide RecordOk, StepFrom, StateAfter;
    var n := |records|;
    History(env, records, n);
    var t := Transitions(records, n);
    StepIsTransition(records[i], rank);
    StepIsTransition(records[j], rank);
    assert i in t && j in t;
    var a :| 0 <= a < |t| && t[a] == i;
    var b :| 0 <= b < |t| && t[b] == j;
    StepRank(records[i], rank, a);
    StepRank(records[j], rank, b);
  }

  // ---------------------------------------------------------------- a link to another record

  function TrainBlock(plan: BlockPlan.Block): PlanRecord { PlanRecord("t", "p", "c", H3Train, 0, "s", None, plan) }

  function ValidBlock(plan: BlockPlan.Block): PlanRecord {
    PlanRecord("w", "p", "c", H3Validation, 1, "z", None, plan)
  }

  const TRAINING := Reference("a", "ha")
  const SEALED := Reference("s", "hs")
  const APPROVAL := Reference("p", "hp")

  function LinkArtifacts(): seq<Artifact> {
    [WitnessEvidence(EVIDENCE[0]), WitnessEvidence(EVIDENCE[1]), WitnessEvidence(EVIDENCE[2]),
     WitnessArtifact(TRAINING), Artifact(SEALED, ValidationSealed, Some("o"), None, None, None),
     Artifact(APPROVAL, TreatmentBlind, None, None, Some(ValidationPrincipal), Some("v"))]
  }

  function LinkEnvironment(plan: BlockPlan.Block): Environment {
    Environment([TrainBlock(plan), ValidBlock(plan)], LinkArtifacts(), WitnessPolicy(), "n", WitnessBindings())
  }

  function SealAll(): Record { SealRecord().(affected := ["t", "w"]) }

  function SelectOne(): Record {
    WitnessRecord(SelectionFreeze, "3", 3, TrainingOpen, SelectionFrozen, [Input(TRAINING, TrainingOnly)], [TRAINING],
                  Some(SELECTION_RULE), None)
  }

  /** An unseal whose selection reference is the sealing record. */
  function UnsealRecord(): Record {
    Record(ValidationUnseal, "4", "h4", Some(4), SelectionFrozen, ValidationUnsealed, true, "k", ValidationCustodian,
           ["w"], [Input(APPROVAL, TreatmentBlind)], [], None, Some(Reference("1", "h1")), None, Some(SEALED),
           Some("o"), None, None, None, [], None, OwnChecks(true, true, true, true))
  }

  function LinkLedger(): seq<Record> { [SealAll(), OpenRecord(), SelectOne(), UnsealRecord()] }

  /** An error-free ledger, whatever the blocks' plans, whose unseal links a record that is no selection. */
  lemma UnsealLinksAnotherRecord(plan: BlockPlan.Block) returns (env: Environment, records: seq<Record>)
    ensures LedgerOk(env, records) && |records| == 4 && records[3].kind == ValidationUnseal
    ensures env.blocks == [TrainBlock(plan), ValidBlock(plan)]
    ensures records[2].kind == SelectionFreeze && records[3].selection != Some(Reference(records[2].id, records[2].sha))
    ensures records[0].kind == ProtocolFreeze && records[3].selection == Some(Reference(records[0].id, records[0].sha))
  {
    env, records := LinkEnvironment(plan), LinkLedger();
    hide LinkEnvironment, EnvironmentOk, RecordOk, SealAll, OpenRecord, SelectOne, UnsealRecord;
    LinkFields(plan);
    LinkEnvironmentOk(plan);
    LinkKinds();
    LinkRecordsOk(plan);
  }

  lemma LinkKinds()
    ensures SealAll().kind == ProtocolFreeze && SelectOne().kind == SelectionFreeze
    ensures UnsealRecord().kind == ValidationUnseal
    ensures UnsealRecord().selection == Some(Reference(SealAll().id, SealAll().sha))
    ensures UnsealRecord().selection != Some(Reference(SelectOne().id, SelectOne().sha))
  {
    assert "1"[0] != "3"[0];
    assert "h" + "1" == "h1";
  }

  lemma LinkFields(plan: BlockPlan.Block)
    ensures var env := LinkEnvironment(plan);
            && env.blocks == [TrainBlock(plan), ValidBlock(plan)] && env.artifacts == LinkArtifacts()
            && env.policy == WitnessPolicy() && env.bindings == WitnessBindings() && env.commonNamespace == "n"
  {
    hide LinkArtifacts, WitnessPolicy, WitnessBindings;
  }

  lemma LinkEnvironmentOk(plan: BlockPlan.Block)
    ensures EnvironmentOk(LinkEnvironment(plan))
  {
    hide PolicyOk, NamespacesOk, WitnessPolicy, WitnessBindings;
    WitnessPolicyOk(LinkArtifacts());
    WitnessNamespacesOk();
    assert "t"[0] != "w"[0];
  }

  lemma LinkRecordsOk(plan: BlockPlan.Block)
    ensures forall i :: 0 <= i < 4 ==> RecordOk(LinkEnvironment(plan), LinkLedger(), i)
  {
    hide LinkEnvironment, CommonOk, Allowed, EvidenceOk, StateAfter, SealAll, OpenRecord, SelectOne, UnsealRecord;
    var env, records := LinkEnvironment(plan), LinkLedger();
    LinkCommon(plan);
    LinkAllowed(plan);
    LinkStates(env, records);
    assert RecordOk(env, records, 0) && RecordOk(env, records, 1) && RecordOk(env, records, 2);
    assert RecordOk(env, records, 3);
    hide RecordOk;
  }

  lemma LinkStates(env: Environment, records: seq<Record>)
    requires records == LinkLedger()
    requires Allowed(env, SealAll()) && Allowed(env, OpenRecord()) && Allowed(env, SelectOne())
    ensures StateAfter(env, records, 0) == SealAll().before && StateAfter(env, records, 1) == OpenRecord().before
    ensures StateAfter(env, records, 2) == SelectOne().before && StateAfter(env, records, 3) == UnsealRecord().before
  {
    hide Allowed;
    assert StateAfter(env, records, 1) == CollectedSealed;
    assert StateAfter(env, records, 2) == TrainingOpen;
    assert StateAfter(env, records, 3) == SelectionFrozen;
  }

  // ---------------------------------------------------------------- its checks

  lemma PoolAffected(plan: BlockPlan.Block)
    ensures var blocks := [TrainBlock(plan), ValidBlock(plan)];
            && ExactAffected(["t", "w"], blocks, None)
            && ExactAffected(["t"], blocks, Some(H3Train)) && ExactAffected(["w"], blocks, Some(H3Validation))
  {
    var blocks := [TrainBlock(plan), ValidBlock(plan)];
    assert "t"[0] != "w"[0];
    assert !Replaced(blocks, "t") && !Replaced(blocks, "w");
    hide Replaced;
    var t, w := TrainBlock(plan), ValidBlock(plan);
    assert blocks[0] == t && blocks[1] == w;
    forall role: Option<Role>, id
      ensures NamesActive(blocks, role, id) <==> (id == "t" && InRole(t, role)) || (id == "w" && InRole(w, role))
    {
      if id == "t" && InRole(t, role) {
        assert ActiveIn(blocks, role, blocks[0]);
      }
      if id == "w" && InRole(w, role) {
        assert ActiveIn(blocks, role, blocks[1]);
      }
    }
    hide NamesActive;
    assert Distinct(["t", "w"]);
  }

  lemma KnownArtifacts()
    ensures forall k :: 0 <= k < 3 ==> ArtifactFor(LinkArtifacts(), EVIDENCE[k]).Some?
    ensures ArtifactFor(LinkArtifacts(), TRAINING) == Some(WitnessArtifact(TRAINING))
    ensures ArtifactFor(LinkArtifacts(), SEALED)
         == Some(Artifact(SEALED, ValidationSealed, Some("o"), None, None, None))
    ensures ArtifactFor(LinkArtifacts(), APPROVAL)
         == Some(Artifact(APPROVAL, TreatmentBlind, None, None, Some(ValidationPrincipal), Some("v")))
  {
    var all := LinkArtifacts();
    forall k | 0 <= k < 3 ensures ArtifactFor(all, EVIDENCE[k]).Some? {
      Listed(all, k);
      assert all[k].ref == EVIDENCE[k];
    }
    FirstListed(3);
    FirstListed(4);
    FirstListed(5);
    hide ArtifactFor;
  }

  lemma FirstListed(k: nat)
    requires 3 <= k < 6
    ensures ArtifactFor(LinkArtifacts(), LinkArtifacts()[k].ref) == Some(LinkArtifacts()[k])
  {
    var all := LinkArtifacts();
    assert all[0].ref.id[0] == 'd' && all[1].ref.id[0] == 'e' && all[2].ref.id[0] == 'g';
    assert all[3].ref.id[0] == 'a' && all[4].ref.id[0] == 's' && all[5].ref.id[0] == 'p';
    forall j | 0 <= j < k ensures all[j].ref != all[k].ref {
      assert all[j].ref.id[0] != all[k].ref.id[0];
    }
    ArtifactIs(all, all[k].ref, k);
  }

  lemma LinkAllowed(plan: BlockPlan.Block)
    ensures var env, records := LinkEnvironment(plan), LinkLedger();
            && Allowed(env, SealAll()) && Allowed(env, OpenRecord()) && Allowed(env, SelectOne())
            && Allowed(env, UnsealRecord()) && forall i :: 0 <= i < 4 ==> EvidenceOk(env, records, i)
  {
    hide ExactAffected, ArtifactFor, LinkEnvironment, LinkArtifacts, EnvironmentOk, Allowed, EvidenceOk, WitnessPolicy,
      WitnessBindings, SealAll, OpenRecord, SelectOne, UnsealRecord, TrainBlock, ValidBlock;
    var env, records := LinkEnvironment(plan), LinkLedger();
    LinkFields(plan);
    PoolAffected(plan);
    KnownArtifacts();
    LinkEnvironmentOk(plan);
    SealAllowed(env);
    OpenAllowed(env);
    SelectAllowed(env, records);
    UnsealAllowed(env, records);
    OpenIsFreeze();
    LinkKinds();
    FreezeEvidence(env, records, 0);
    FreezeEvidence(env, records, 1);
  }

  lemma OpenIsFreeze()
    ensures OpenRecord().kind == ProtocolFreeze
  {
  }

  lemma SealAllowed(env: Environment)
    requires ExactAffected(["t", "w"], env.blocks, None)
    ensures Allowed(env, SealAll())
  {
    hide ExactAffected;
  }

  lemma OpenAllowed(env: Environment)
    requires ExactAffected(["t"], env.blocks, Some(H3Train))
    ensures Allowed(env, OpenRecord())
  {
    hide ExactAffected;
    WitnessDecision();
    hide DecisionOk;
  }

  lemma SelectAllowed(env: Environment, records: seq<Record>)
    requires ExactAffected(["t"], env.blocks, Some(H3Train)) && |records| == 4 && records[2] == SelectOne()
    requires ArtifactFor(env.artifacts, TRAINING) == Some(WitnessArtifact(TRAINING))
    ensures Allowed(env, SelectOne()) && EvidenceOk(env, records, 2)
  {
    hide ExactAffected, ArtifactFor;
    var r := SelectOne();
    assert r.inputs[0] == Input(TRAINING, TrainingOnly);
    assert r.inputs[1..] == [] && TrainingCount(r.inputs) == 1;
    assert TrainingInputOk(env, r, TRAINING);
  }

  lemma UnsealAllowed(env: Environment, records: seq<Record>)
    requires EnvironmentOk(env) && ExactAffected(["w"], env.blocks, Some(H3Validation)) && records == LinkLedger()
    requires env.policy == WitnessPolicy() && env.bindings == WitnessBindings() && env.commonNamespace == "n"
    requires ArtifactFor(env.artifacts, SEALED) == Some(Artifact(SEALED, ValidationSealed, Some("o"), None, None, None))
    requires ArtifactFor(env.artifacts, APPROVAL)
          == Some(Artifact(APPROVAL, TreatmentBlind, None, None, Some(ValidationPrincipal), Some("v")))
    ensures Allowed(env, UnsealRecord()) && EvidenceOk(env, records, 3)
  {
    var r := UnsealRecord();
    assert env.policy.assignments[3] == Assignment(ValidationPrincipal, "v");
    assert r.inputs[0] == Input(APPROVAL, TreatmentBlind);
    assert ApprovedBy(env, r, r.inputs[0], "v");
    assert env.bindings[1] == Binding(H3Validation, "o", "n");
    assert LinksEarlier(records, 3, r.selection) by {
      LinkKinds();
      assert r.selection == Some(Reference(records[0].id, records[0].sha));
    }
    hide EnvironmentOk, ExactAffected, ArtifactFor, Allowed, EvidenceOk, ApprovedBy, LinksEarlier;
    UnsealIff(env, records, 3);
  }

  lemma LinkCommon(plan: BlockPlan.Block)
    ensures var env, records := LinkEnvironment(plan), LinkLedger();
            forall i :: 0 <= i < 4 ==> CommonOk(env, records, i)
  {
    var env, records := LinkEnvironment(plan), LinkLedger();
    KnownArtifacts();
    assert env.artifacts == LinkArtifacts();
    hide ArtifactFor, LinkArtifacts, CommonOk, InputsKnown;
    LinkInputs(env);
    LinkSigned(env);
    LinkPool(env, plan);
    forall i | 0 <= i < 4 ensures CommonOk(env, records, i) {
      CommonFor(env, records, i);
    }
  }

  lemma LinkInputs(env: Environment)
    requires forall k :: 0 <= k < 3 ==> ArtifactFor(env.artifacts, EVIDENCE[k]).Some?
    requires ArtifactFor(env.artifacts, TRAINING).Some? && ArtifactFor(env.artifacts, APPROVAL).Some?
    ensures forall i :: 0 <= i < 4 ==> InputsKnown(env, LinkLedger()[i])
  {
    FreezesKnown(env);
    hide ArtifactFor;
    assert SealAll().inputs == SealRecord().inputs;
  }

  lemma LinkSigned(env: Environment)
    requires env.policy == WitnessPolicy()
    ensures AssignmentFor(env.policy.assignments, FreezePrincipal) == Some("f")
    ensures AssignmentFor(env.policy.assignments, CustodianPrincipal) == Some("k")
  {
    var all := env.policy.assignments;
    assert all[1..][0].principal == CustodianPrincipal;
  }

  lemma LinkPool(env: Environment, plan: BlockPlan.Block)
    requires env.blocks == [TrainBlock(plan), ValidBlock(plan)]
    ensures IdIn(env.blocks, "t") == Some(TrainBlock(plan)) && IdIn(env.blocks, "w") == Some(ValidBlock(plan))
  {
    assert "t"[0] != "w"[0];
    assert env.blocks[1..] == [ValidBlock(plan)];
  }

  lemma CommonFor(env: Environment, records: seq<Record>, i: nat)
    requires records == LinkLedger() && i < 4 && InputsKnown(env, records[i])
    requires AssignmentFor(env.policy.assignments, FreezePrincipal) == Some("f")
    requires AssignmentFor(env.policy.assignments, CustodianPrincipal) == Some("k")
    requires IdIn(env.blocks, "t").Some? && IdIn(env.blocks, "t").value.role == H3Train
    requires IdIn(env.blocks, "w").Some? && IdIn(env.blocks, "w").value.role == H3Validation
    ensures CommonOk(env, records, i)
  {
    hide ArtifactFor, AssignmentFor, IdIn;
    LinkIds(records, i);
    LinkTimes(records, i);
    hide InOrder;
  }

  lemma LinkIds(records: seq<Record>, i: nat)
    requires records == LinkLedger() && i < 4
    ensures forall k :: 0 <= k < i ==> records[k].id != records[i].id
  {
    assert records[0].id[0] == '1' && records[1].id[0] == '2' && records[2].id[0] == '3' && records[3].id[0] == '4';
  }

  lemma LinkTimes(records: seq<Record>, i: nat)
    requires records == LinkLedger() && i < 4
    ensures InOrder(records, i)
  {
    assert records[i].timestamp == Some(i + 1);
    assert i > 0 ==> records[i - 1].timestamp == Some(i);
  }
}
