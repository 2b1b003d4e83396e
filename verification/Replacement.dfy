/** Authorized replacement of complete blocks, and what any run of replacements keeps. */
module Replacement {
  import opened Prelude
  import opened Pool
  import opened Sorting
  import opened BlockPlan
  import BlockValidation
  import Permutation
  import Authority
  import Ledger

  // ---------------------------------------------------------------- requests

  /** Derives a block's identity from its fields; None when a field cannot be part of an identity. */
  type IdMaker = (string, string, Role, u64) -> Option<string>

  datatype GenerationInput = GenerationInput(
    platformId: string, buildId: string, role: Role, ordinal: u64, seedRole: Role, subspace: string,
    seeds: Seeds, catalogOk: bool, orders: Orders, lineage: Option<Lineage>)

  datatype Run = Run(
    runId: string, blockId: string, role: Role, key: Key, stageA: bool, invalid: bool, incomplete: bool,
    failureIds: seq<string>)

  datatype Failure = Failure(
    id: string, runId: Option<string>, blockId: Option<string>, invalidatesRun: bool, blockIncomplete: bool,
    authorized: bool, authorizationId: Option<string>, replacementBlockId: Option<string>)

  datatype Approved = Approved(
    originalBlockId: string, failureId: string, budgetId: string, blockId: string, ordinal: u64, role: Role,
    subspace: string)

  datatype Authorization = Authorization(
    id: string, wellFormed: bool, affected: seq<string>, inputs: seq<Ledger.Input>, approved: Option<Approved>)

  datatype Budget = Budget(platformId: string, maximum: u64, artifact: Authority.Reference, opaqueId: bool)

  datatype Request = Request(
    target: PlanRecord, run: Run, failure: Failure, authorization: Authorization, input: GenerationInput)

  datatype Decision = Authorized(plan: PlanRecord) | StudyUnresolved

  datatype Refusal =
    | PlatformBudget | NoBranch | InvalidRequiredRun | AuthorizationLineage | FailureAuthorization
    | NewBlockBinding | NewIdentity | NewRandomOrder
    | SeedCatalog | GenerationIdentity | RoleImmutable | IdFields | NewId | LineageShape

  // ---------------------------------------------------------------- generation

  ghost function PlannedBlock(seeds: Seeds, o: Orders): (b: Block)
    requires OrdersOk(o) && SeedsComplete(seeds)
    ensures |b.cells| == 180 && forall k :: 0 <= k < 180 ==> b.cells[k] == PlannedCell(seeds, o, k)
  {
    Block(PlotState(o, 0), PlotState(o, 90), seq(180, k requires 0 <= k < 180 => PlannedCell(seeds, o, k)))
  }

  /** The refusal of a generation input, if any: the first of these that applies. */
  ghost function InputRefusal(makeId: IdMaker, input: GenerationInput): Option<Refusal> {
    var id := makeId(input.platformId, input.buildId, input.role, input.ordinal);
    var replaced := input.lineage;
    if !input.catalogOk || !SeedsOk(input.seeds) then Some(SeedCatalog)
    else if input.role != input.seedRole then Some(GenerationIdentity)
    else if replaced.Some? && replaced.value.replacedRole != input.role then Some(RoleImmutable)
    else if id.None? then Some(IdFields)
    else if replaced.Some? && Some(replaced.value.replacedId) == id then Some(NewId)
    else if replaced.Some? && replaced.value.replacedOrdinal == input.ordinal then Some(LineageShape)
    else if replaced.Some? && replaced.value.replacedSubspace == input.subspace then Some(LineageShape)
    else None
  }

  function FieldRefusal(makeId: IdMaker, input: GenerationInput): Option<Refusal> {
    var id := makeId(input.platformId, input.buildId, input.role, input.ordinal);
    if input.role != input.seedRole then Some(GenerationIdentity)
    else if input.lineage.Some? && input.lineage.value.replacedRole != input.role then Some(RoleImmutable)
    else if id.None? then Some(IdFields)
    else if input.lineage.Some? && input.lineage.value.replacedId == id.value then Some(NewId)
    else if input.lineage.Some? &&
      (input.lineage.value.replacedOrdinal == input.ordinal || input.lineage.value.replacedSubspace == input.subspace)
    then Some(LineageShape)
    else None
  }

  ghost function GeneratedPlan(makeId: IdMaker, input: GenerationInput): Result<PlanRecord, Refusal>
    requires OrdersOk(input.orders)
  {
    var refusal := InputRefusal(makeId, input);
    if refusal.Some? then Err(refusal.value)
    else
      Ok(PlanRecord(
           makeId(input.platformId, input.buildId, input.role, input.ordinal).value,
           input.platformId, input.buildId, input.role, input.ordinal, input.subspace, input.lineage,
           PlannedBlock(input.seeds, input.orders)))
  }

  method GeneratePlan(makeId: IdMaker, input: GenerationInput) returns (r: Result<PlanRecord, Refusal>)
    requires OrdersOk(input.orders)
    ensures r == GeneratedPlan(makeId, input)
    ensures r.Err? ==>
      r.error in {SeedCatalog, GenerationIdentity, RoleImmutable, IdFields, NewId, LineageShape}
  {
    hide OrdersOk;
    var seedErrors := ValidateSeedCatalog(input.seeds);
    if !input.catalogOk || seedErrors != [] {
      return Err(SeedCatalog);
    }
    hide SeedsSeparated;
    var refusal := FieldRefusal(makeId, input);
    if refusal.Some? {
      return Err(refusal.value);
    }
    var generated := BlockValidation.GenerateAndValidate(input.seeds, input.orders);
    var plan := generated.value;
    ArisingInOrder(plan, input.seeds, input.orders);
    return Ok(PlanRecord(
      makeId(input.platformId, input.buildId, input.role, input.ordinal).value,
      input.platformId, input.buildId, input.role, input.ordinal, input.subspace, input.lineage, plan));
  }

  lemma ArisingInOrder(b: Block, seeds: Seeds, o: Orders)
    requires BlockValidation.Arises(b, seeds, o) && forall k :: 0 <= k < 180 ==> b.cells[k].ordinal == k
    ensures b == PlannedBlock(seeds, o)
  {
    hide PlannedCell, OrdersOk;
    assert b.cells == PlannedBlock(seeds, o).cells;
  }

  // ---------------------------------------------------------------- the decision

  function Earlier(a: Cell, b: Cell): bool { a.ordinal <= b.ordinal }

  function KeysOf(cells: seq<Cell>): seq<Key> { seq(|cells|, k requires 0 <= k < |cells| => cells[k].key) }

  /** A block's factor tuples in logical order. */
  function OrderedFactors(b: Block): seq<Key> { KeysOf(Sort(Earlier, b.cells)) }

  predicate SameOrder(a: Block, b: Block) {
    a.first == b.first && a.second == b.second && OrderedFactors(a) == OrderedFactors(b)
  }

  predicate IsReplacement(b: PlanRecord) { b.lineage.Some? }

  function Replacements(pool: seq<PlanRecord>): nat { CountIf(IsReplacement, pool) }

  /** A retained invalid run of the block, and the failure that invalidated it. */
  predicate RunInvalidates(q: Request) {
    && q.run.stageA && q.run.blockId == q.target.blockId && q.run.role == q.target.role
    && q.run.invalid && q.run.incomplete
    && (exists k :: 0 <= k < |q.target.plan.cells| && q.target.plan.cells[k].key == q.run.key)
    && q.failure.id in q.run.failureIds
    && q.failure.runId == Some(q.run.runId) && q.failure.blockId == Some(q.target.blockId)
    && q.failure.invalidatesRun && q.failure.blockIncomplete
  }

  predicate BudgetBound(q: Request, budget: Budget) {
    exists k :: 0 <= k < |q.authorization.inputs| && q.authorization.inputs[k].artifact == budget.artifact
      && (q.authorization.inputs[k].accessClass == Authority.PublicProtocol
          || q.authorization.inputs[k].accessClass == Authority.PlatformEvidence
          || q.authorization.inputs[k].accessClass == Authority.TreatmentBlind)
  }

  predicate AuthorizationBound(q: Request, budget: Budget) {
    && q.authorization.wellFormed && q.authorization.affected == [q.target.blockId]
    && BudgetBound(q, budget)
    && q.authorization.approved.Some?
    && var a := q.authorization.approved.value;
       a.originalBlockId == q.target.blockId && a.failureId == q.failure.id && a.budgetId == budget.artifact.id
  }

  predicate FailureLinked(q: Request)
    requires q.authorization.approved.Some?
  {
    && q.failure.authorized && q.failure.authorizationId == Some(q.authorization.id)
    && q.failure.replacementBlockId == Some(q.authorization.approved.value.blockId)
  }

  predicate NewBlockBound(makeId: IdMaker, q: Request)
    requires q.authorization.approved.Some?
  {
    var a, input := q.authorization.approved.value, q.input;
    && makeId(input.platformId, input.buildId, input.role, input.ordinal) == Some(a.blockId)
    && input.platformId == q.target.platformId && input.buildId == q.target.buildId
    && input.ordinal == a.ordinal && input.role == a.role && input.subspace == a.subspace
    && input.lineage == Some(Lineage(q.target.blockId, q.authorization.id, q.target.ordinal, q.target.role,
                                     q.target.subspace))
  }

  predicate Fresh(pool: seq<PlanRecord>, id: string, ordinal: u64, subspace: string) {
    forall k :: 0 <= k < |pool| ==>
      pool[k].blockId != id && pool[k].ordinal != ordinal && pool[k].subspace != subspace
  }

  /** All the checks made before a plan is generated. */
  predicate Admissible(makeId: IdMaker, pool: seq<PlanRecord>, budget: Budget, q: Request) {
    && q.target.platformId == budget.platformId && IdIn(pool, q.target.blockId).Some? && budget.opaqueId
    && Replacements(pool) < budget.maximum
    && !Replaced(pool, q.target.blockId)
    && RunInvalidates(q) && AuthorizationBound(q, budget) && FailureLinked(q) && NewBlockBound(makeId, q)
    && Fresh(pool, q.authorization.approved.value.blockId, q.input.ordinal, q.input.subspace)
  }

  /** What an authorized decision is, independently of the order of the checks. */
  ghost predicate IsAuthorized(makeId: IdMaker, pool: seq<PlanRecord>, budget: Budget, q: Request, plan: PlanRecord)
    requires OrdersOk(q.input.orders)
  {
    && Admissible(makeId, pool, budget, q)
    && GeneratedPlan(makeId, q.input) == Ok(plan)
    && !SameOrder(plan.plan, q.target.plan)
  }

  /** Decides a request for a replacement of a complete block. */
  method DecideReplacement(makeId: IdMaker, pool: seq<PlanRecord>, budget: Budget, q: Request)
    returns (r: Result<Decision, Refusal>)
    requires OrdersOk(q.input.orders)
    ensures forall plan :: r == Ok(Authorized(plan)) <==> IsAuthorized(makeId, pool, budget, q, plan)
    ensures r == Ok(StudyUnresolved) <==>
      && q.target.platformId == budget.platformId && IdIn(pool, q.target.blockId).Some? && budget.opaqueId
      && Replacements(pool) >= budget.maximum
    ensures r == Err(PlatformBudget) <==>
      q.target.platformId != budget.platformId || IdIn(pool, q.target.blockId).None? || !budget.opaqueId
    ensures r.Err? && r != Err(PlatformBudget) ==> Replacements(pool) < budget.maximum
    ensures r == Err(NoBranch) ==> Replaced(pool, q.target.blockId)
    ensures r == Err(InvalidRequiredRun) ==> !RunInvalidates(q)
    ensures r == Err(AuthorizationLineage) ==> !AuthorizationBound(q, budget)
    ensures r == Err(FailureAuthorization) ==> q.authorization.approved.Some? && !FailureLinked(q)
    ensures r == Err(NewBlockBinding) ==> q.authorization.approved.Some? && !NewBlockBound(makeId, q)
    ensures r == Err(NewIdentity) ==>
      && q.authorization.approved.Some?
      && !Fresh(pool, q.authorization.approved.value.blockId, q.input.ordinal, q.input.subspace)
  {
    hide OrdersOk, GeneratedPlan, Sort, CountIf, RunInvalidates, AuthorizationBound, Replaced, Fresh, SameOrder,
      NewBlockBound, FailureLinked;
    if q.target.platformId != budget.platformId || IdIn(pool, q.target.blockId).None? || !budget.opaqueId {
      return Err(PlatformBudget);
    }
    if Replacements(pool) >= budget.maximum {
      return Ok(StudyUnresolved);
    }
    if Replaced(pool, q.target.blockId) {
      return Err(NoBranch);
    }
    if !RunInvalidates(q) {
      return Err(InvalidRequiredRun);
    }
    if !AuthorizationBound(q, budget) {
      return Err(AuthorizationLineage);
    }
    BoundIsApproved(q, budget);
    if !FailureLinked(q) {
      return Err(FailureAuthorization);
    }
    if !NewBlockBound(makeId, q) {
      return Err(NewBlockBinding);
    }
    if !Fresh(pool, q.authorization.approved.value.blockId, q.input.ordinal, q.input.subspace) {
      return Err(NewIdentity);
    }
    var generated := GeneratePlan(makeId, q.input);
    if generated.Err? {
      return Err(generated.error);
    }
    if SameOrder(generated.value.plan, q.target.plan) {
      return Err(NewRandomOrder);
    }
    return Ok(Authorized(generated.value));
  }

  lemma BoundIsApproved(q: Request, budget: Budget)
    requires AuthorizationBound(q, budget)
    ensures q.authorization.approved.Some?
  {
  }

  // ---------------------------------------------------------------- one replacement

  ghost predicate UniqueOrdinals(pool: seq<PlanRecord>) {
    forall i, j :: 0 <= i < j < |pool| ==> pool[i].ordinal != pool[j].ordinal
  }

  ghost predicate UniqueSubspaces(pool: seq<PlanRecord>) {
    forall i, j :: 0 <= i < j < |pool| ==> pool[i].subspace != pool[j].subspace
  }

  /** No block has two replacements. */
  ghost predicate Unbranched(pool: seq<PlanRecord>) {
    forall i, j :: 0 <= i < j < |pool| && IsReplacement(pool[i]) && IsReplacement(pool[j]) ==>
      pool[i].lineage.value.replacedId != pool[j].lineage.value.replacedId
  }

  /** b is a replacement of a, with the same immutable role and a true account of it. */
  ghost predicate Succeeds(a: PlanRecord, b: PlanRecord) {
    && b.lineage.Some? && b.role == a.role
    && var l := b.lineage.value;
       && l.replacedId == a.blockId && l.replacedOrdinal == a.ordinal
       && l.replacedRole == a.role && l.replacedSubspace == a.subspace
  }

  /** Every replacement succeeds an earlier block. */
  ghost predicate Grounded(pool: seq<PlanRecord>) {
    forall j :: 0 <= j < |pool| && IsReplacement(pool[j]) ==> GroundedAt(pool, j)
  }

  ghost predicate GroundedAt(pool: seq<PlanRecord>, j: nat)
    requires j < |pool|
  {
    exists i :: 0 <= i < j && Succeeds(pool[i], pool[j])
  }

  ghost predicate PoolOk(pool: seq<PlanRecord>) {
    UniqueIds(pool) && UniqueOrdinals(pool) && UniqueSubspaces(pool) && Unbranched(pool) && Grounded(pool)
  }

  /** What an authorized plan says about itself. */
  lemma AuthorizedPlan(makeId: IdMaker, pool: seq<PlanRecord>, budget: Budget, q: Request, plan: PlanRecord)
    requires OrdersOk(q.input.orders) && IsAuthorized(makeId, pool, budget, q, plan)
    ensures plan.lineage == Some(Lineage(q.target.blockId, q.authorization.id, q.target.ordinal, q.target.role,
                                         q.target.subspace))
    ensures plan.role == q.target.role
    ensures Fresh(pool, plan.blockId, plan.ordinal, plan.subspace)
    ensures IdIn(pool, q.target.blockId).Some? && !Replaced(pool, q.target.blockId)
    ensures Replacements(pool) < budget.maximum
  {
    hide OrdersOk, SameOrder, RunInvalidates, BudgetBound, Fresh, Replaced, PlannedBlock, CountIf;
  }

  /** Identities, ordinals and subspaces stay unique. */
  lemma AppendUnique(pool: seq<PlanRecord>, plan: PlanRecord)
    requires UniqueIds(pool) && UniqueOrdinals(pool) && UniqueSubspaces(pool)
    requires Fresh(pool, plan.blockId, plan.ordinal, plan.subspace)
    ensures UniqueIds(pool + [plan]) && UniqueOrdinals(pool + [plan]) && UniqueSubspaces(pool + [plan])
  {
  }

  lemma AppendUnbranched(pool: seq<PlanRecord>, plan: PlanRecord)
    requires Unbranched(pool) && IsReplacement(plan) && !Replaced(pool, plan.lineage.value.replacedId)
    ensures Unbranched(pool + [plan])
  {
    var all := pool + [plan];
    forall i, j | 0 <= i < j < |all| && IsReplacement(all[i]) && IsReplacement(all[j])
      ensures all[i].lineage.value.replacedId != all[j].lineage.value.replacedId
    {
      assert all[i] == pool[i];
      if j == |pool| {
        assert !Replaces(pool[i], plan.lineage.value.replacedId);
      }
    }
  }

  lemma AppendGrounded(pool: seq<PlanRecord>, target: PlanRecord, plan: PlanRecord)
    requires Grounded(pool) && target in pool && Succeeds(target, plan)
    ensures Grounded(pool + [plan])
  {
    var all := pool + [plan];
    forall j | 0 <= j < |all| && IsReplacement(all[j]) ensures GroundedAt(all, j) {
      if j < |pool| {
        assert GroundedAt(pool, j);
        var i :| 0 <= i < j && Succeeds(pool[i], pool[j]);
        assert Succeeds(all[i], all[j]);
      } else {
        var i :| 0 <= i < |pool| && pool[i] == target;
        assert Succeeds(all[i], all[j]);
      }
    }
  }

  /** An authorized replacement of one of the pool's own plans keeps the pool well formed. */
  lemma ReplacementKeepsPool(makeId: IdMaker, pool: seq<PlanRecord>, budget: Budget, q: Request, plan: PlanRecord)
    requires OrdersOk(q.input.orders) && IsAuthorized(makeId, pool, budget, q, plan)
    requires PoolOk(pool) && q.target in pool
    ensures PoolOk(pool + [plan])
  {
    AuthorizedPlan(makeId, pool, budget, q, plan);
    hide OrdersOk, IsAuthorized, Replaced, Fresh, UniqueIds, UniqueOrdinals, UniqueSubspaces, Unbranched, Grounded;
    AppendUnique(pool, plan);
    AppendUnbranched(pool, plan);
    AppendGrounded(pool, q.target, plan);
  }

  // ---------------------------------------------------------------- active blocks

  ghost function ActiveOf(pool: seq<PlanRecord>, role: Role): set<string> {
    set k | 0 <= k < |pool| && ActiveIn(pool, Some(role), pool[k]) :: pool[k].blockId
  }

  lemma ActiveOfNames(pool: seq<PlanRecord>, role: Role, id: string)
    ensures id in ActiveOf(pool, role) <==> NamesActive(pool, Some(role), id)
  {
  }

  lemma ReplacedAppend(pool: seq<PlanRecord>, plan: PlanRecord, id: string)
    ensures Replaced(pool + [plan], id) <==> Replaced(pool, id) || Replaces(plan, id)
  {
    var all := pool + [plan];
    if Replaced(pool, id) {
      var k :| 0 <= k < |pool| && Replaces(pool[k], id);
      assert Replaces(all[k], id);
    }
    if Replaces(plan, id) {
      assert Replaces(all[|pool|], id);
    }
  }

  /** Nothing in a grounded pool replaces an identity that is not in it. */
  lemma NewIdUnreplaced(pool: seq<PlanRecord>, id: string)
    requires Grounded(pool) && forall k :: 0 <= k < |pool| ==> pool[k].blockId != id
    ensures !Replaced(pool, id)
  {
    forall k | 0 <= k < |pool| && IsReplacement(pool[k]) ensures !Replaces(pool[k], id) {
      assert GroundedAt(pool, k);
      var i :| 0 <= i < k && Succeeds(pool[i], pool[k]);
    }
  }

  /** How one replacement changes who is active. */
  lemma ActiveAppend(pool: seq<PlanRecord>, plan: PlanRecord, role: Role, id: string)
    requires Grounded(pool) && Fresh(pool, plan.blockId, plan.ordinal, plan.subspace)
    requires IsReplacement(plan) && plan.lineage.value.replacedId != plan.blockId
    ensures NamesActive(pool + [plan], Some(role), id) <==>
      || (id == plan.blockId && plan.role == role)
      || (id != plan.lineage.value.replacedId && NamesActive(pool, Some(role), id))
  {
    var all := pool + [plan];
    NewIdUnreplaced(pool, plan.blockId);
    ReplacedAppend(pool, plan, id);
    ReplacedAppend(pool, plan, plan.blockId);
    hide Replaced, Grounded, Fresh;
    if NamesActive(all, Some(role), id) {
      var k :| 0 <= k < |all| && all[k].blockId == id && ActiveIn(all, Some(role), all[k]);
      if k < |pool| {
        assert pool[k].blockId == id && ActiveIn(pool, Some(role), pool[k]);
      }
    }
    if id == plan.blockId && plan.role == role {
      assert ActiveIn(all, Some(role), all[|pool|]);
    }
    if id != plan.lineage.value.replacedId && NamesActive(pool, Some(role), id) {
      var k :| 0 <= k < |pool| && pool[k].blockId == id && ActiveIn(pool, Some(role), pool[k]);
      assert all[k] == pool[k] && ActiveIn(all, Some(role), all[k]);
    }
  }

  /** The active identities of a role after a replacement. */
  lemma ActiveOfAppend(pool: seq<PlanRecord>, plan: PlanRecord, role: Role)
    requires Grounded(pool) && Fresh(pool, plan.blockId, plan.ordinal, plan.subspace)
    requires IsReplacement(plan) && plan.lineage.value.replacedId != plan.blockId
    ensures ActiveOf(pool + [plan], role) ==
      (ActiveOf(pool, role) - {plan.lineage.value.replacedId}) + (if plan.role == role then {plan.blockId} else {})
    ensures plan.blockId !in ActiveOf(pool, role)
  {
    forall id
      ensures id in ActiveOf(pool, role) <==> NamesActive(pool, Some(role), id)
      ensures id in ActiveOf(pool + [plan], role) <==> NamesActive(pool + [plan], Some(role), id)
    {
      ActiveOfNames(pool, role, id);
      ActiveOfNames(pool + [plan], role, id);
    }
    forall id ensures NamesActive(pool + [plan], Some(role), id) <==>
      || (id == plan.blockId && plan.role == role)
      || (id != plan.lineage.value.replacedId && NamesActive(pool, Some(role), id))
    {
      ActiveAppend(pool, plan, role, id);
    }
    assert !NamesActive(pool, Some(role), plan.blockId);
    hide NamesActive, ActiveOf, Grounded, Fresh;
  }

  /** The target is active in its own role only. */
  lemma TargetActive(pool: seq<PlanRecord>, id: string, role: Role)
    requires UniqueIds(pool) && IdIn(pool, id).Some? && !Replaced(pool, id)
    ensures id in ActiveOf(pool, role) <==> IdIn(pool, id).value.role == role
  {
    Ledger.ActiveBlock(pool, Some(role), id);
    ActiveOfNames(pool, role, id);
  }

  lemma SetSwap<T>(s: set<T>, out: T, added: T, removes: bool, adds: bool)
    requires added !in s && (out in s <==> removes)
    ensures |(s - {out}) + (if adds then {added} else {})| == |s| - (if removes then 1 else 0) + (if adds then 1 else 0)
  {
    if !removes {
      assert s - {out} == s;
    }
  }

  /** The number of active blocks of a role after an authorized replacement, whatever plan was named. */
  lemma ActiveCountAfter(
    makeId: IdMaker, pool: seq<PlanRecord>, budget: Budget, q: Request, plan: PlanRecord, role: Role)
    requires OrdersOk(q.input.orders) && IsAuthorized(makeId, pool, budget, q, plan) && PoolOk(pool)
    ensures IdIn(pool, q.target.blockId).Some?
    ensures |ActiveOf(pool + [plan], role)| == |ActiveOf(pool, role)|
              - (if IdIn(pool, q.target.blockId).value.role == role then 1 else 0)
              + (if q.target.role == role then 1 else 0)
  {
    AuthorizedPlan(makeId, pool, budget, q, plan);
    var id := q.target.blockId;
    assert id != plan.blockId by {
      var b := IdIn(pool, id).value;
      assert b in pool && b.blockId == id;
    }
    hide OrdersOk, IsAuthorized, Replaced, Fresh, UniqueOrdinals, UniqueSubspaces, Unbranched, Grounded, ActiveOf;
    ActiveOfAppend(pool, plan, role);
    TargetActive(pool, id, role);
    SetSwap(ActiveOf(pool, role), id, plan.blockId, IdIn(pool, id).value.role == role, plan.role == role);
  }

  /**
   The number of active blocks of every role is kept exactly when the named plan has the role of
   the pool's block with that identity; the decision itself only looks the identity up.
   */
  lemma RoleCountsKeptIff(makeId: IdMaker, pool: seq<PlanRecord>, budget: Budget, q: Request, plan: PlanRecord)
    requires OrdersOk(q.input.orders) && IsAuthorized(makeId, pool, budget, q, plan) && PoolOk(pool)
    ensures IdIn(pool, q.target.blockId).Some?
    ensures (forall role :: |ActiveOf(pool + [plan], role)| == |ActiveOf(pool, role)|) <==>
      q.target.role == IdIn(pool, q.target.blockId).value.role
  {
    hide OrdersOk, IsAuthorized, PoolOk, ActiveOf, IdIn;
    forall role
      ensures IdIn(pool, q.target.blockId).Some?
      ensures |ActiveOf(pool + [plan], role)| == |ActiveOf(pool, role)|
              - (if IdIn(pool, q.target.blockId).value.role == role then 1 else 0)
              + (if q.target.role == role then 1 else 0)
    {
      ActiveCountAfter(makeId, pool, budget, q, plan, role);
    }
    var other := q.target.role;
    assert IdIn(pool, q.target.blockId).Some? by {
      ActiveCountAfter(makeId, pool, budget, q, plan, other);
    }
    if other != IdIn(pool, q.target.blockId).value.role {
      assert |ActiveOf(pool + [plan], other)| == |ActiveOf(pool, other)| + 1;
    }
  }

  /**
   The condition matters: a request that carries the plan of a training block under the role of a
   validation block is authorized, and the training pool loses a block. Everything else about the
   pool and the request is in order.
   */
  lemma ForgedRole() returns (makeId: IdMaker, pool: seq<PlanRecord>, budget: Budget, q: Request, plan: PlanRecord)
    ensures PoolOk(pool) && OrdersOk(q.input.orders) && IsAuthorized(makeId, pool, budget, q, plan)
    ensures forall b :: b in pool ==>
      makeId(b.platformId, b.buildId, b.role, b.ordinal) == Some(b.blockId)
      && exists o :: BlockValidation.Arises(b.plan, WitnessSeeds(), o)
    ensures pool != [] && q.target == pool[0].(role := H3Validation)
    ensures |ActiveOf(pool + [plan], H3Train)| == |ActiveOf(pool, H3Train)| - 1
    ensures |ActiveOf(pool + [plan], H3Validation)| == |ActiveOf(pool, H3Validation)| + 1
  {
    var seeds, o, swapped := WitnessSeeds(), WitnessOrders([0, 1]), WitnessOrders([1, 0]);
    WitnessesOk();
    PlotsSwapped(seeds, o, swapped);
    hide OrdersOk, SeedsSeparated, IsAuthorized, PoolOk, ActiveOf, WitnessSeeds, WitnessOrders, BlockValidation.Arises;
    PlannedArises(seeds, swapped);
    makeId := WitnessIds;
    var own := PlanRecord("a", "p", "c", H3Train, 0, "s0", None, PlannedBlock(seeds, swapped));
    budget, pool := WitnessBudget(), [own];
    q, plan := ForgedRequest(own, seeds, o), ForgedPlan(seeds, o);
    ForgedIsAuthorized(own, seeds, o);
    ForgedCounts(makeId, pool, budget, q, plan);
    OnlyOwn(own, seeds, swapped);
  }

  lemma OnlyOwn(own: PlanRecord, seeds: Seeds, o: Orders)
    requires own.blockId == "a" && own.role == H3Train && own.ordinal == 0
    requires BlockValidation.Arises(own.plan, seeds, o)
    ensures forall b :: b in [own] ==>
      WitnessIds(b.platformId, b.buildId, b.role, b.ordinal) == Some(b.blockId)
      && exists o :: BlockValidation.Arises(b.plan, seeds, o)
  {
    hide BlockValidation.Arises;
  }

  lemma PlotsSwapped(seeds: Seeds, o: Orders, p: Orders)
    requires OrdersOk(o) && OrdersOk(p) && SeedsComplete(seeds) && o.plots == [0, 1] && p.plots == [1, 0]
    ensures PlannedBlock(seeds, o).first == H0 && PlannedBlock(seeds, p).first == H1
  {
  }

  function WitnessIds(platform: string, build: string, role: Role, ordinal: u64): Option<string> {
    Some(if role == H3Train && ordinal == 0 then "a" else "b")
  }

  function WitnessBudget(): Budget { Budget("p", 1, Authority.Reference("r", "h"), true) }

  function ForgedLineage(): Lineage { Lineage("a", "auth", 0, H3Validation, "s0") }

  /** A request to replace the block that says it is a validation block. */
  function ForgedRequest(own: PlanRecord, seeds: Seeds, o: Orders): Request
    requires own.plan.cells != []
  {
    Request(
      own.(role := H3Validation),
      Run("run", "a", H3Validation, own.plan.cells[0].key, true, true, true, ["f"]),
      Failure("f", Some("run"), Some("a"), true, true, true, Some("auth"), Some("b")),
      Authorization("auth", true, ["a"], [Ledger.Input(Authority.Reference("r", "h"), Authority.PublicProtocol)],
                    Some(Approved("a", "f", "r", "b", 1, H3Validation, "s1"))),
      GenerationInput("p", "c", H3Validation, 1, H3Validation, "s1", seeds, true, o, Some(ForgedLineage())))
  }

  ghost function ForgedPlan(seeds: Seeds, o: Orders): PlanRecord
    requires OrdersOk(o) && SeedsComplete(seeds)
  {
    PlanRecord("b", "p", "c", H3Validation, 1, "s1", Some(ForgedLineage()), PlannedBlock(seeds, o))
  }

  /** Thirty different seed identities. */
  function WitnessSeeds(): Seeds {
    Seeds(seq(18, i requires 0 <= i < 18 => [(65 + i) as char]), seq(6, i requires 0 <= i < 6 => [(97 + i) as char]),
          seq(6, i requires 0 <= i < 6 => [(103 + i) as char]))
  }

  function WitnessOrders(plots: seq<nat>): Orders {
    Orders(plots, Permutation.Identity(90), Permutation.Identity(90))
  }

  lemma WitnessesOk()
    ensures SeedsOk(WitnessSeeds())
    ensures OrdersOk(WitnessOrders([0, 1])) && OrdersOk(WitnessOrders([1, 0]))
  {
    var all := AllSeeds(WitnessSeeds());
    forall k | 0 <= k < 30 ensures all[k] == [(if k < 18 then 65 + k else 79 + k) as char] {
    }
  }

  lemma ForgedCounts(makeId: IdMaker, pool: seq<PlanRecord>, budget: Budget, q: Request, plan: PlanRecord)
    requires OrdersOk(q.input.orders) && IsAuthorized(makeId, pool, budget, q, plan)
    requires |pool| == 1 && pool[0].lineage == None && pool[0].role == H3Train
    requires q.target.blockId == pool[0].blockId && q.target.role == H3Validation
    ensures PoolOk(pool)
    ensures |ActiveOf(pool + [plan], H3Train)| == |ActiveOf(pool, H3Train)| - 1
    ensures |ActiveOf(pool + [plan], H3Validation)| == |ActiveOf(pool, H3Validation)| + 1
  {
    hide IsAuthorized, OrdersOk, ActiveOf;
    assert PoolOk(pool);
    assert IdIn(pool, q.target.blockId) == Some(pool[0]);
    ActiveCountAfter(makeId, pool, budget, q, plan, H3Train);
    ActiveCountAfter(makeId, pool, budget, q, plan, H3Validation);
  }

  lemma ForgedIsAuthorized(own: PlanRecord, seeds: Seeds, o: Orders)
    requires OrdersOk(o) && SeedsOk(seeds) && own.plan.cells != [] && own.lineage == None
    requires own.blockId == "a" && own.platformId == "p" && own.buildId == "c" && own.ordinal == 0
    requires own.subspace == "s0" && own.plan.first != PlannedBlock(seeds, o).first
    ensures IsAuthorized(WitnessIds, [own], WitnessBudget(), ForgedRequest(own, seeds, o), ForgedPlan(seeds, o))
  {
    hide OrdersOk, SeedsSeparated, PlannedBlock, Sort;
    var q := ForgedRequest(own, seeds, o);
    ForgedRun(own, seeds, o);
    ForgedAuthorization(own, seeds, o);
    hide RunInvalidates, AuthorizationBound;
    assert CountIf(IsReplacement, [own]) == 0;
    assert IdIn([own], "a").Some?;
    assert GeneratedPlan(WitnessIds, q.input) == Ok(ForgedPlan(seeds, o));
  }

  lemma ForgedRun(own: PlanRecord, seeds: Seeds, o: Orders)
    requires own.plan.cells != [] && own.blockId == "a"
    ensures RunInvalidates(ForgedRequest(own, seeds, o))
  {
    var q := ForgedRequest(own, seeds, o);
    assert q.target.plan.cells[0].key == q.run.key && q.run.failureIds[0] == "f";
  }

  lemma ForgedAuthorization(own: PlanRecord, seeds: Seeds, o: Orders)
    requires own.plan.cells != [] && own.blockId == "a"
    ensures AuthorizationBound(ForgedRequest(own, seeds, o), WitnessBudget())
  {
    assert ForgedRequest(own, seeds, o).authorization.inputs[0].artifact == WitnessBudget().artifact;
  }

  // ---------------------------------------------------------------- whole runs

  /**
   A run of authorized replacements, each naming the pool's own plan, takes `pool` to `last`;
   requests that are refused or leave the study unresolved add no block and need no step.
   */
  ghost predicate Reaches(makeId: IdMaker, budget: Budget, pool: seq<PlanRecord>, steps: seq<(Request, PlanRecord)>,
                          last: seq<PlanRecord>)
    decreases |steps|
  {
    if steps == [] then last == pool
    else
      var (q, plan) := steps[0];
      && OrdersOk(q.input.orders) && IsAuthorized(makeId, pool, budget, q, plan) && q.target in pool
      && Reaches(makeId, budget, pool + [plan], steps[1..], last)
  }

  lemma ReplacementsAppend(pool: seq<PlanRecord>, plan: PlanRecord)
    requires IsReplacement(plan)
    ensures Replacements(pool + [plan]) == Replacements(pool) + 1
  {
    CountIfConcat(IsReplacement, pool, [plan]);
    assert CountIf(IsReplacement, [plan]) == 1;
  }

  /**
   Over every run: identities, ordinals and subspaces stay unique, no block is replaced twice,
   every replacement succeeds an earlier block, the active blocks per role stay as many, the
   earlier pool is kept, and the budget is never exceeded.
   */
  lemma {:induction false} RunsKeepPool(makeId: IdMaker, budget: Budget, pool: seq<PlanRecord>,
                                        steps: seq<(Request, PlanRecord)>, last: seq<PlanRecord>, role: Role)
    requires PoolOk(pool) && Reaches(makeId, budget, pool, steps, last)
    ensures PoolOk(last) && |last| == |pool| + |steps| && pool <= last
    ensures |ActiveOf(last, role)| == |ActiveOf(pool, role)|
    ensures Replacements(last) == Replacements(pool) + |steps|
    ensures steps != [] ==> Replacements(last) <= budget.maximum
    decreases |steps|
  {
    hide PoolOk, ActiveOf, OrdersOk, IsAuthorized, Replacements;
    if steps != [] {
      var (q, plan) := steps[0];
      var next := pool + [plan];
      StepKeepsPool(makeId, budget, pool, q, plan, role);
      RunsKeepPool(makeId, budget, next, steps[1..], last, role);
    }
  }

  lemma StepKeepsPool(makeId: IdMaker, budget: Budget, pool: seq<PlanRecord>, q: Request, plan: PlanRecord, role: Role)
    requires OrdersOk(q.input.orders) && IsAuthorized(makeId, pool, budget, q, plan)
    requires PoolOk(pool) && q.target in pool
    ensures PoolOk(pool + [plan])
    ensures |ActiveOf(pool + [plan], role)| == |ActiveOf(pool, role)|
    ensures Replacements(pool + [plan]) == Replacements(pool) + 1 <= budget.maximum
  {
    ReplacementKeepsPool(makeId, pool, budget, q, plan);
    ActiveCountAfter(makeId, pool, budget, q, plan, role);
    AuthorizedPlan(makeId, pool, budget, q, plan);
    ReplacementsAppend(pool, plan);
    OwnPlanFound(pool, q.target);
  }

  lemma OwnPlanFound(pool: seq<PlanRecord>, b: PlanRecord)
    requires PoolOk(pool) && b in pool
    ensures IdIn(pool, b.blockId) == Some(b)
  {
    IdInUnique(pool, b);
  }

  /** The position of the block a replacement succeeds. */
  ghost function Predecessor(pool: seq<PlanRecord>, j: nat): (i: nat)
    requires Grounded(pool) && j < |pool| && IsReplacement(pool[j])
    ensures i < j && Succeeds(pool[i], pool[j])
  {
    assert GroundedAt(pool, j);
    var i :| 0 <= i < j && Succeeds(pool[i], pool[j]);
    i
  }

  /** Replacement chains are acyclic: they descend to an original block of the same role. */
  ghost function Origin(pool: seq<PlanRecord>, j: nat): (i: nat)
    requires Grounded(pool) && j < |pool|
    ensures i <= j && !IsReplacement(pool[i]) && pool[i].role == pool[j].role
    decreases j
  {
    if IsReplacement(pool[j]) then Origin(pool, Predecessor(pool, j)) else j
  }

  // ---------------------------------------------------------------- new random order

  /** Sorting an accepted block by ordinal lists the cells its randomization put there. */
  lemma SortedIsPlanned(b: Block, seeds: Seeds, o: Orders)
    requires BlockValidation.Arises(b, seeds, o)
    ensures Sort(Earlier, b.cells) == PlannedBlock(seeds, o).cells
  {
    hide PlannedCell, OrdersOk, Sort;
    SortSorts(Earlier, b.cells);
    var s := Sort(Earlier, b.cells);
    forall k | 0 <= k < 180 ensures s[k].ordinal < 180 && s[k] == PlannedCell(seeds, o, s[k].ordinal) {
      ListedCell(b, seeds, o, s, k);
    }
    SortedOrdinals(b.cells, s);
    hide BlockValidation.Arises, Ordered;
    assert s == PlannedBlock(seeds, o).cells;
  }

  lemma ListedCell(b: Block, seeds: Seeds, o: Orders, s: seq<Cell>, k: nat)
    requires BlockValidation.Arises(b, seeds, o) && multiset(s) == multiset(b.cells) && k < |s|
    ensures s[k].ordinal < 180 && s[k] == PlannedCell(seeds, o, s[k].ordinal)
  {
    hide PlannedCell, OrdersOk;
    assert s[k] in multiset(s);
    assert s[k] in b.cells;
    var i :| 0 <= i < |b.cells| && b.cells[i] == s[k];
  }

  /** 180 distinct ordinals below 180, sorted, are 0 to 179. */
  lemma SortedOrdinals(cells: seq<Cell>, s: seq<Cell>)
    requires |cells| == 180 && BlockValidation.OrdinalsExact(cells, 180)
    requires multiset(s) == multiset(cells) && |s| == 180 && Ordered(Earlier, s)
    requires forall k :: 0 <= k < 180 ==> s[k].ordinal < 180
    ensures forall k :: 0 <= k < 180 ==> s[k].ordinal == k
  {
    forall k | 0 <= k < 179 ensures s[k].ordinal < s[k + 1].ordinal {
      assert Earlier(s[k], s[k + 1]);
      if s[k].ordinal == s[k + 1].ordinal {
        TwiceTheSame(cells, s, k);
      }
    }
    hide Ordered, BlockValidation.OrdinalsExact;
    Squeeze(s, 0);
  }

  lemma TwiceTheSame(cells: seq<Cell>, s: seq<Cell>, k: nat)
    requires |cells| == 180 && BlockValidation.OrdinalsExact(cells, 180)
    requires multiset(s) == multiset(cells) && |s| == 180 && k < 179
    ensures s[k].ordinal != s[k + 1].ordinal
  {
    var o := s[k].ordinal;
    if s[k + 1].ordinal == o {
      var same := (c: Cell) => c.ordinal == o;
      CountIfPermutation(same, s, cells);
      CountIfIsPositions(same, s);
      CountIfIsPositions(same, cells);
      AtLeastTwo(Positions(same, s), k, k + 1);
      AtMostOne(cells, o);
      assert false;
    }
  }

  lemma AtLeastTwo(s: set<nat>, a: nat, b: nat)
    requires a in s && b in s && a != b
    ensures |s| >= 2
  {
    assert s == {a} + (s - {a});
    assert b in s - {a};
  }

  lemma AtMostOne(cells: seq<Cell>, o: nat)
    requires |cells| == 180 && BlockValidation.OrdinalsExact(cells, 180)
    ensures |Positions((c: Cell) => c.ordinal == o, cells)| <= 1
  {
    var p := Positions((c: Cell) => c.ordinal == o, cells);
    if p != {} {
      var i :| i in p;
      assert p == {i} by {
        forall j | j in p ensures j == i {
          assert i < j || j < i || i == j;
        }
      }
    }
  }

  lemma {:induction false} Squeeze(s: seq<Cell>, k: nat)
    requires |s| == 180 && k <= 180
    requires forall i :: 0 <= i < 180 ==> s[i].ordinal < 180
    requires forall i :: 0 <= i < 179 ==> s[i].ordinal < s[i + 1].ordinal
    requires forall i :: 0 <= i < k ==> s[i].ordinal >= i
    ensures forall i :: 0 <= i < 180 ==> s[i].ordinal == i
    decreases 180 - k
  {
    if k < 180 {
      if k > 0 {
        assert s[k - 1].ordinal < s[k - 1 + 1].ordinal;
      }
      Squeeze(s, k + 1);
    } else {
      SqueezeDown(s, 179);
    }
  }

  lemma {:induction false} SqueezeDown(s: seq<Cell>, k: nat)
    requires |s| == 180 && k < 180
    requires forall i :: 0 <= i < 180 ==> i <= s[i].ordinal < 180
    requires forall i :: 0 <= i < 179 ==> s[i].ordinal < s[i + 1].ordinal
    requires s[k].ordinal <= k && forall i :: k < i < 180 ==> s[i].ordinal == i
    ensures forall i :: 0 <= i < 180 ==> s[i].ordinal == i
  {
    if k > 0 {
      assert s[k - 1].ordinal < s[k - 1 + 1].ordinal;
      SqueezeDown(s, k - 1);
    }
  }

  /** Two randomizations with the same plots and the same tuples in order are the same. */
  lemma SameTuplesSameOrders(seeds: Seeds, other: Seeds, o: Orders, p: Orders)
    requires OrdersOk(o) && OrdersOk(p) && SeedsComplete(seeds) && SeedsComplete(other)
    requires forall k :: 0 <= k < 180 ==> PlannedCell(seeds, o, k).key == PlannedCell(other, p, k).key
    ensures o == p
  {
    forall k: nat | k < 180 ensures PlotState(o, k) == PlotState(p, k) && Selected(o, k) == Selected(p, k) {
      assert PlannedCell(seeds, o, k).key == PlannedCell(other, p, k).key;
      SelectedByTuple(seeds, other, o, p, k);
    }
    SelectedDetermines(o, p);
  }

  lemma SelectedByTuple(seeds: Seeds, other: Seeds, o: Orders, p: Orders, k: nat)
    requires OrdersOk(o) && OrdersOk(p) && SeedsComplete(seeds) && SeedsComplete(other) && k < 180
    requires PlannedCell(seeds, o, k).key == PlannedCell(other, p, k).key
    ensures PlotState(o, k) == PlotState(p, k) && Selected(o, k) == Selected(p, k)
  {
    BlockValidation.PlannedKey(seeds, o, k);
    BlockValidation.PlannedKey(other, p, k);
    hide PlannedCell, WithinAt, GenCell, OrdersOk;
    WithinIndexAt(Selected(o, k));
    WithinIndexAt(Selected(p, k));
  }

  lemma SelectedDetermines(o: Orders, p: Orders)
    requires OrdersOk(o) && OrdersOk(p)
    requires forall k: nat :: k < 180 ==> PlotState(o, k) == PlotState(p, k) && Selected(o, k) == Selected(p, k)
    ensures o == p
  {
    PlotsDetermined(o, p);
    var begin := if PlotState(o, 0) == H0 then 0 else 90;
    BlockValidation.PlotStates(o, 0);
    BlockValidation.PlotStates(o, 90);
    forall j: nat | j < 90 ensures o.h0[j] == p.h0[j] && o.h1[j] == p.h1[j] {
      BlockValidation.PlotStates(o, j);
      BlockValidation.PlotStates(o, 90 + j);
      assert Selected(o, begin + j) == Selected(p, begin + j);
      assert Selected(o, 90 - begin + j) == Selected(p, 90 - begin + j);
    }
    assert o.h0 == p.h0 && o.h1 == p.h1;
  }

  lemma PlotsDetermined(o: Orders, p: Orders)
    requires OrdersOk(o) && OrdersOk(p) && PlotState(o, 0) == PlotState(p, 0) && PlotState(o, 90) == PlotState(p, 90)
    ensures o.plots == p.plots
  {
    StateAt(o.plots[0]);
    StateAt(p.plots[0]);
    StateAt(o.plots[1]);
    StateAt(p.plots[1]);
    assert o.plots == [o.plots[0], o.plots[1]] && p.plots == [p.plots[0], p.plots[1]];
  }

  /** The order test compares exactly the randomizations behind the two blocks. */
  lemma SameOrderIff(a: Block, b: Block, seeds: Seeds, other: Seeds, o: Orders, p: Orders)
    requires BlockValidation.Arises(a, seeds, o) && BlockValidation.Arises(b, other, p)
    ensures SameOrder(a, b) <==> o == p
  {
    SortedIsPlanned(a, seeds, o);
    SortedIsPlanned(b, other, p);
    var s, t := PlannedBlock(seeds, o).cells, PlannedBlock(other, p).cells;
    hide Sort, PlannedBlock;
    if SameOrder(a, b) {
      forall k | 0 <= k < 180 ensures PlannedCell(seeds, o, k).key == PlannedCell(other, p, k).key {
        assert KeysOf(s)[k] == KeysOf(t)[k];
      }
      SameTuplesSameOrders(seeds, other, o, p);
    }
    if o == p {
      forall k | 0 <= k < 180 ensures s[k].key == t[k].key {
        BlockValidation.PlannedKey(seeds, o, k);
        BlockValidation.PlannedKey(other, p, k);
      }
      assert KeysOf(s) == KeysOf(t);
    }
  }

  /** An authorized replacement of an accepted block really is randomized anew. */
  lemma ReplacementIsNew(makeId: IdMaker, pool: seq<PlanRecord>, budget: Budget, q: Request, plan: PlanRecord,
                         seeds: Seeds, o: Orders)
    requires OrdersOk(q.input.orders) && IsAuthorized(makeId, pool, budget, q, plan)
    requires BlockValidation.Arises(q.target.plan, seeds, o)
    ensures BlockValidation.Structural(plan.plan, q.input.seeds) && q.input.orders != o
  {
    PlannedArises(q.input.seeds, q.input.orders);
    BlockValidation.ArisingIsStructural(plan.plan, q.input.seeds, q.input.orders);
    SameOrderIff(plan.plan, q.target.plan, q.input.seeds, seeds, q.input.orders, o);
  }

  lemma PlannedArises(seeds: Seeds, o: Orders)
    requires OrdersOk(o) && SeedsOk(seeds)
    ensures BlockValidation.Arises(PlannedBlock(seeds, o), seeds, o)
  {
    forall k | 0 <= k < 180 ensures PlannedCell(seeds, o, k).ordinal == k {
      BlockValidation.PlannedKey(seeds, o, k);
    }
    hide PlannedCell, OrdersOk;
  }
}
