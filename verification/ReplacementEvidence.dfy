/** What an authorized replacement rests on, said of the request's records alone. */
module ReplacementEvidence {
  import opened Prelude
  import opened Pool
  import opened Sorting
  import opened BlockPlan
  import opened Replacement
  import Authority
  import Ledger

  /** Blocks of the pool that replace another. */
  ghost function ReplacementPlaces(pool: seq<PlanRecord>): set<nat> {
    set k: nat | k < |pool| && pool[k].lineage.Some?
  }

  /** The run: a stage A run of the block, for a tuple the block planned, retained as invalid and incomplete. */
  ghost predicate RetainedInvalid(run: Run, target: PlanRecord) {
    && run.stageA && run.invalid && run.incomplete
    && run.blockId == target.blockId && run.role == target.role
    && exists cell :: cell in target.plan.cells && cell.key == run.key
  }

  /** The failure: named by the run, naming it and its block, and resolved by this authorization. */
  ghost predicate Resolved(failure: Failure, run: Run, authorization: Authorization, id: string) {
    && failure.id in run.failureIds && failure.runId == Some(run.runId) && failure.blockId == Some(run.blockId)
    && failure.invalidatesRun && failure.blockIncomplete && failure.authorized
    && failure.authorizationId == Some(authorization.id) && failure.replacementBlockId == Some(id)
  }

  /** The authorization: of this block alone, with the frozen budget among its outcome-free inputs. */
  ghost predicate Sanctions(authorization: Authorization, target: PlanRecord, failure: Failure, budget: Budget) {
    && authorization.wellFormed && authorization.affected == [target.blockId]
    && (exists input :: input in authorization.inputs && OutcomeFreeBudget(input, budget))
    && authorization.approved.Some?
    && authorization.approved.value.originalBlockId == target.blockId
    && authorization.approved.value.failureId == failure.id
    && authorization.approved.value.budgetId == budget.artifact.id
  }

  ghost predicate OutcomeFreeBudget(input: Ledger.Input, budget: Budget) {
    && input.artifact == budget.artifact
    && input.accessClass in {Authority.PublicProtocol, Authority.PlatformEvidence, Authority.TreatmentBlind}
  }

  /** The plan: the approved identity, ordinal, role and subspace, and the target's platform, build and lineage. */
  ghost predicate AsApproved(makeId: IdMaker, q: Request, plan: PlanRecord) {
    && q.authorization.approved.Some?
    && var a := q.authorization.approved.value;
       && makeId(plan.platformId, plan.buildId, plan.role, plan.ordinal) == Some(plan.blockId)
       && plan.blockId == a.blockId && plan.ordinal == a.ordinal && plan.role == a.role && plan.subspace == a.subspace
       && plan.platformId == q.target.platformId && plan.buildId == q.target.buildId && plan.role == q.target.role
       && plan.lineage == Some(Lineage(q.target.blockId, q.authorization.id, q.target.ordinal, q.target.role,
                                       q.target.subspace))
       && plan.blockId != q.target.blockId && plan.ordinal != q.target.ordinal && plan.subspace != q.target.subspace
  }

  /** The generation input asks for this plan. */
  ghost predicate AskedFor(input: GenerationInput, plan: PlanRecord)
    requires OrdersOk(input.orders)
  {
    && input.platformId == plan.platformId && input.buildId == plan.buildId
    && input.role == plan.role && input.seedRole == plan.role
    && input.ordinal == plan.ordinal && input.subspace == plan.subspace && input.lineage == plan.lineage
    && input.catalogOk && SeedsOk(input.seeds) && plan.plan == PlannedBlock(input.seeds, input.orders)
  }

  /**
   A request is authorized exactly when the target is an unreplaced block of the pool on the budget's
   platform with replacements left; its run is retained as invalid and incomplete, its failure is
   resolved by the authorization, and the authorization sanctions both; the plan is the approved one,
   new in the pool, and realizes another order.
   */
  lemma AuthorizedIff(makeId: IdMaker, pool: seq<PlanRecord>, budget: Budget, q: Request, plan: PlanRecord)
    requires OrdersOk(q.input.orders)
    ensures IsAuthorized(makeId, pool, budget, q, plan) <==>
      && q.target.platformId == budget.platformId && budget.opaqueId
      && (exists b :: b in pool && b.blockId == q.target.blockId)
      && (forall b :: b in pool && b.lineage.Some? ==> b.lineage.value.replacedId != q.target.blockId)
      && |ReplacementPlaces(pool)| < budget.maximum
      && RetainedInvalid(q.run, q.target)
      && Resolved(q.failure, q.run, q.authorization, plan.blockId)
      && Sanctions(q.authorization, q.target, q.failure, budget)
      && AsApproved(makeId, q, plan) && AskedFor(q.input, plan)
      && (forall b :: b in pool ==>
            b.blockId != plan.blockId && b.ordinal != plan.ordinal && b.subspace != plan.subspace)
      && !SameOrder(plan.plan, q.target.plan)
  {
    PoolIs(pool, q.target.blockId);
    CountedIs(pool);
    FreshIs(pool, plan);
    RunIs(q);
    BoundIs(q, budget);
    PlanIs(makeId, q, plan);
    hide OrdersOk, SameOrder, ReplacementPlaces, CountIf, Replacements, Replaced, RunInvalidates, RetainedInvalid,
      AuthorizationBound, Sanctions, Fresh, FailureLinked, NewBlockBound, AsApproved, AskedFor, GeneratedPlan;
    hide FailureNamed, FailureResolved;
    ResolvedIs(q, plan.blockId);
    hide Resolved;
    if q.authorization.approved.Some? && GeneratedPlan(makeId, q.input) == Ok(plan) && NewBlockBound(makeId, q) {
      Coordinates(makeId, q, plan);
    }
    if AsApproved(makeId, q, plan) && AskedFor(q.input, plan) {
      ApprovedCoordinates(makeId, q, plan);
    }
  }

  /** What the run says of the failure, and what the authorization adds. */
  ghost predicate FailureNamed(q: Request) {
    && q.failure.id in q.run.failureIds
    && q.failure.runId == Some(q.run.runId) && q.failure.blockId == Some(q.target.blockId)
    && q.failure.invalidatesRun && q.failure.blockIncomplete
  }

  ghost predicate FailureResolved(q: Request, id: string) {
    && q.failure.authorized && q.failure.authorizationId == Some(q.authorization.id)
    && q.failure.replacementBlockId == Some(id)
  }

  lemma ResolvedIs(q: Request, id: string)
    ensures q.run.blockId == q.target.blockId ==>
      (Resolved(q.failure, q.run, q.authorization, id) <==> FailureNamed(q) && FailureResolved(q, id))
    ensures RetainedInvalid(q.run, q.target) ==> q.run.blockId == q.target.blockId
    ensures q.authorization.approved.Some? && q.authorization.approved.value.blockId == id ==>
      (FailureLinked(q) <==> FailureResolved(q, id))
  {
  }

  lemma PoolIs(pool: seq<PlanRecord>, id: string)
    ensures IdIn(pool, id).Some? <==> exists b :: b in pool && b.blockId == id
    ensures Replaced(pool, id) <==> exists b :: b in pool && b.lineage.Some? && b.lineage.value.replacedId == id
  {
    if b :| b in pool && b.lineage.Some? && b.lineage.value.replacedId == id {
      var k :| 0 <= k < |pool| && pool[k] == b;
      assert Replaces(pool[k], id);
    }
  }

  lemma CountedIs(pool: seq<PlanRecord>)
    ensures Replacements(pool) == |ReplacementPlaces(pool)|
  {
    CountIfIsPositions(IsReplacement, pool);
    assert ReplacementPlaces(pool) == Positions(IsReplacement, pool);
  }

  lemma FreshIs(pool: seq<PlanRecord>, plan: PlanRecord)
    ensures Fresh(pool, plan.blockId, plan.ordinal, plan.subspace) <==> forall b :: b in pool ==>
      b.blockId != plan.blockId && b.ordinal != plan.ordinal && b.subspace != plan.subspace
  {
    if Fresh(pool, plan.blockId, plan.ordinal, plan.subspace) {
      forall b | b in pool
        ensures b.blockId != plan.blockId && b.ordinal != plan.ordinal && b.subspace != plan.subspace
      {
        var k :| 0 <= k < |pool| && pool[k] == b;
      }
    }
  }

  lemma RunIs(q: Request)
    ensures RunInvalidates(q) <==> RetainedInvalid(q.run, q.target) && FailureNamed(q)
  {
    if cell :| cell in q.target.plan.cells && cell.key == q.run.key {
      var k :| 0 <= k < |q.target.plan.cells| && q.target.plan.cells[k] == cell;
    }
  }

  lemma BoundIs(q: Request, budget: Budget)
    ensures AuthorizationBound(q, budget) <==> Sanctions(q.authorization, q.target, q.failure, budget)
    ensures AuthorizationBound(q, budget) ==> q.authorization.approved.Some?
  {
    if Sanctions(q.authorization, q.target, q.failure, budget) {
      var input :| input in q.authorization.inputs && OutcomeFreeBudget(input, budget);
      var k :| 0 <= k < |q.authorization.inputs| && q.authorization.inputs[k] == input;
    }
    if BudgetBound(q, budget) {
      BudgetInput(q, budget);
    }
  }

  lemma BudgetInput(q: Request, budget: Budget)
    requires BudgetBound(q, budget)
    ensures exists input :: input in q.authorization.inputs && OutcomeFreeBudget(input, budget)
  {
    var inputs := q.authorization.inputs;
    var k :| 0 <= k < |inputs| && inputs[k].artifact == budget.artifact
      && (inputs[k].accessClass == Authority.PublicProtocol || inputs[k].accessClass == Authority.PlatformEvidence
          || inputs[k].accessClass == Authority.TreatmentBlind);
    assert OutcomeFreeBudget(inputs[k], budget);
  }

  lemma PlanIs(makeId: IdMaker, q: Request, plan: PlanRecord)
    requires OrdersOk(q.input.orders)
    ensures q.authorization.approved.Some? ==>
      (NewBlockBound(makeId, q) && GeneratedPlan(makeId, q.input) == Ok(plan)
       <==> AsApproved(makeId, q, plan) && AskedFor(q.input, plan))
    ensures AsApproved(makeId, q, plan) ==> q.authorization.approved.Some?
  {
    hide OrdersOk, PlannedBlock, SeedsOk;
  }

  lemma Coordinates(makeId: IdMaker, q: Request, plan: PlanRecord)
    requires OrdersOk(q.input.orders) && q.authorization.approved.Some?
    requires GeneratedPlan(makeId, q.input) == Ok(plan) && NewBlockBound(makeId, q)
    ensures q.authorization.approved.value.blockId == plan.blockId
    ensures q.input.ordinal == plan.ordinal && q.input.subspace == plan.subspace
  {
    hide OrdersOk, PlannedBlock, SeedsOk;
  }

  lemma ApprovedCoordinates(makeId: IdMaker, q: Request, plan: PlanRecord)
    requires OrdersOk(q.input.orders) && AsApproved(makeId, q, plan) && AskedFor(q.input, plan)
    ensures q.authorization.approved.value.blockId == plan.blockId
    ensures q.input.ordinal == plan.ordinal && q.input.subspace == plan.subspace
  {
    hide OrdersOk, PlannedBlock, SeedsOk;
  }
}
