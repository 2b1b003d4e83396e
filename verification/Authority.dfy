/** Who may do what: the authority policy, the role namespaces, and the artifacts that evidence them. */
module Authority {
  import opened Prelude
  import opened Pool
  import opened BlockPlan

  datatype Principal =
    | FreezePrincipal | CustodianPrincipal | TrainingAnalyst | ValidationPrincipal
    | ConfirmatoryPrincipal | ReplacementPrincipal

  datatype AccessClass =
    | TreatmentBlind | TrainingOnly | ValidationSealed | ValidationUnsealedClass | PublicProtocol | PlatformEvidence

  datatype Reference = Reference(id: string, sha: string)

  datatype Artifact = Artifact(
    ref: Reference, accessClass: AccessClass, namespaceId: Option<string>, role: Option<Role>,
    issuingRole: Option<Principal>, issuer: Option<string>)

  datatype Assignment = Assignment(principal: Principal, authorityId: string)

  /** Evidence that one authority may hold two roles. */
  datatype Overlap = Overlap(first: Principal, second: Principal, authorityId: string, artifact: Reference)

  datatype Policy = Policy(assignments: seq<Assignment>, overlaps: seq<Overlap>)

  /** A block role's namespace under the common one. */
  datatype Binding = Binding(role: Role, namespaceId: string, parentId: string)

  datatype PolicyRule =
    | AuthorityAssignment | AuthorityComplete | AuthorityExact | AuthoritySegregation
    | NamespaceOpaque | NamespaceParent | NamespaceUnique | NamespaceComplete | NamespaceExact

  /** The authority assigned to a principal: the first assignment counts. */
  function AssignmentFor(assignments: seq<Assignment>, p: Principal): Option<string> {
    if assignments == [] then None
    else if assignments[0].principal == p then Some(assignments[0].authorityId)
    else AssignmentFor(assignments[1..], p)
  }

  function ArtifactFor(artifacts: seq<Artifact>, ref: Reference): (r: Option<Artifact>)
    ensures r.Some? ==> r.value in artifacts && r.value.ref == ref
    ensures r.None? ==> forall a :: a in artifacts ==> a.ref != ref
  {
    if artifacts == [] then None
    else if artifacts[0].ref == ref then Some(artifacts[0])
    else ArtifactFor(artifacts[1..], ref)
  }

  /** The namespace bound to a role: the first binding counts. */
  function BindingFor(bindings: seq<Binding>, role: Role): Option<string> {
    if bindings == [] then None
    else if bindings[0].role == role then Some(bindings[0].namespaceId)
    else BindingFor(bindings[1..], role)
  }

  // ---------------------------------------------------------------- the authority policy

  const PRINCIPALS: seq<Principal> := [
    FreezePrincipal, CustodianPrincipal, TrainingAnalyst, ValidationPrincipal, ConfirmatoryPrincipal,
    ReplacementPrincipal]

  /** The overlap names the two roles, in either order, and this authority, with evidence that is known. */
  predicate Permits(o: Overlap, artifacts: seq<Artifact>, a: Assignment, b: Assignment) {
    && ((o.first == a.principal && o.second == b.principal) || (o.first == b.principal && o.second == a.principal))
    && o.authorityId == a.authorityId && ArtifactFor(artifacts, o.artifact).Some?
  }

  predicate Permitted(policy: Policy, artifacts: seq<Artifact>, a: Assignment, b: Assignment) {
    exists k :: 0 <= k < |policy.overlaps| && Permits(policy.overlaps[k], artifacts, a, b)
  }

  ghost predicate HasPrincipal(assignments: seq<Assignment>, p: Principal) {
    exists k :: 0 <= k < |assignments| && assignments[k].principal == p
  }

  ghost predicate AssignedOnce(assignments: seq<Assignment>) {
    && (forall k :: 0 <= k < |assignments| ==> Opaque(assignments[k].authorityId))
    && (forall j, k :: 0 <= j < k < |assignments| ==> assignments[j].principal != assignments[k].principal)
  }

  ghost predicate Segregated(policy: Policy, artifacts: seq<Artifact>) {
    forall j, k :: 0 <= j < k < |policy.assignments| ==>
      Separate(policy, artifacts, policy.assignments[j], policy.assignments[k])
  }

  /** The two assignments do not share an authority without evidence. */
  ghost predicate Separate(policy: Policy, artifacts: seq<Artifact>, a: Assignment, b: Assignment) {
    a.authorityId == b.authorityId ==> Permitted(policy, artifacts, a, b)
  }

  /** Each of the six roles is held once, and one authority holds two only with evidence. */
  ghost predicate PolicyOk(policy: Policy, artifacts: seq<Artifact>) {
    && AssignedOnce(policy.assignments)
    && (forall k :: 0 <= k < |PRINCIPALS| ==> HasPrincipal(policy.assignments, PRINCIPALS[k]))
    && |policy.assignments| == 6
    && Segregated(policy, artifacts)
  }

  method ValidateAuthorityPolicy(policy: Policy, artifacts: seq<Artifact>) returns (errors: seq<PolicyRule>)
    ensures errors == [] <==> PolicyOk(policy, artifacts)
  {
    var assignmentErrors, roles := CollectPrincipals(policy.assignments);
    var missing: seq<PolicyRule> := [];
    for k := 0 to |PRINCIPALS|
      invariant assignmentErrors == [] ==>
        (missing == [] <==> forall j :: 0 <= j < k ==> HasPrincipal(policy.assignments, PRINCIPALS[j]))
    {
      if PRINCIPALS[k] !in roles {
        missing := missing + [AuthorityComplete];
      }
    }
    var extra := if |policy.assignments| != |PRINCIPALS| then [AuthorityExact] else [];
    var overlapErrors := SegregationErrors(policy, artifacts);
    errors := assignmentErrors + missing + extra + overlapErrors;
  }

  method CollectPrincipals(assignments: seq<Assignment>) returns (errors: seq<PolicyRule>, roles: set<Principal>)
    ensures errors == [] <==> AssignedOnce(assignments)
    ensures errors == [] ==> forall p :: p in roles <==> HasPrincipal(assignments, p)
  {
    hide Opaque;
    errors, roles := [], {};
    for index := 0 to |assignments|
      invariant errors == [] <==>
        && (forall k :: 0 <= k < index ==> Opaque(assignments[k].authorityId))
        && (forall j, k :: 0 <= j < k < index ==> assignments[j].principal != assignments[k].principal)
      invariant errors == [] ==> forall p :: p in roles <==> exists k :: 0 <= k < index && assignments[k].principal == p
    {
      var a := assignments[index];
      if !Opaque(a.authorityId) || a.principal in roles {
        errors := errors + [AuthorityAssignment];
      } else {
        roles := roles + {a.principal};
      }
    }
  }

  method SegregationErrors(policy: Policy, artifacts: seq<Artifact>) returns (errors: seq<PolicyRule>)
    ensures errors == [] <==> Segregated(policy, artifacts)
  {
    hide Permitted;
    errors := [];
    var all := policy.assignments;
    for left := 0 to |all|
      invariant errors == [] <==>
        forall j, k :: 0 <= j < k < |all| && j < left ==> Separate(policy, artifacts, all[j], all[k])
    {
      ghost var before := errors;
      for right := left + 1 to |all|
        invariant errors == [] <==>
          before == [] && forall k :: left < k < right ==> Separate(policy, artifacts, all[left], all[k])
      {
        if all[left].authorityId == all[right].authorityId && !Permitted(policy, artifacts, all[left], all[right]) {
          errors := errors + [AuthoritySegregation];
        }
      }
    }
  }

  lemma {:induction false} AssignmentFound(assignments: seq<Assignment>, k: nat)
    requires k < |assignments| && AssignedOnce(assignments)
    ensures AssignmentFor(assignments, assignments[k].principal) == Some(assignments[k].authorityId)
  {
    hide Opaque;
    if k > 0 {
      assert assignments[0].principal != assignments[k].principal;
      AssignmentFound(assignments[1..], k - 1);
    }
  }

  /** Under an accepted policy every role has an authority. */
  lemma EveryRoleHeld(policy: Policy, artifacts: seq<Artifact>, p: Principal) returns (k: nat)
    requires PolicyOk(policy, artifacts)
    ensures k < 6 && policy.assignments[k].principal == p
    ensures AssignmentFor(policy.assignments, p) == Some(policy.assignments[k].authorityId)
  {
    hide Segregated, AssignedOnce;
    var j := match p
      case FreezePrincipal => 0
      case CustodianPrincipal => 1
      case TrainingAnalyst => 2
      case ValidationPrincipal => 3
      case ConfirmatoryPrincipal => 4
      case ReplacementPrincipal => 5;
    assert PRINCIPALS[j] == p && HasPrincipal(policy.assignments, PRINCIPALS[j]);
    k :| 0 <= k < |policy.assignments| && policy.assignments[k].principal == p;
    AssignmentFound(policy.assignments, k);
  }

  /** Two different roles held by one authority are held with evidence. */
  lemma SharedAuthorityPermitted(policy: Policy, artifacts: seq<Artifact>, p: Principal, q: Principal)
    requires PolicyOk(policy, artifacts) && p != q
    requires AssignmentFor(policy.assignments, p) == AssignmentFor(policy.assignments, q)
    ensures exists k :: 0 <= k < |policy.overlaps|
              && Some(policy.overlaps[k].authorityId) == AssignmentFor(policy.assignments, p)
              && {policy.overlaps[k].first, policy.overlaps[k].second} == {p, q}
              && ArtifactFor(artifacts, policy.overlaps[k].artifact).Some?
  {
    var i := EveryRoleHeld(policy, artifacts, p);
    var j := EveryRoleHeld(policy, artifacts, q);
    hide AssignedOnce, AssignmentFor, ArtifactFor;
    hide HasPrincipal, Permitted;
    if i < j {
      assert Separate(policy, artifacts, policy.assignments[i], policy.assignments[j]);
      OverlapNames(policy, artifacts, policy.assignments[i], policy.assignments[j]);
    } else {
      assert Separate(policy, artifacts, policy.assignments[j], policy.assignments[i]);
      OverlapNames(policy, artifacts, policy.assignments[j], policy.assignments[i]);
    }
  }

  lemma OverlapNames(policy: Policy, artifacts: seq<Artifact>, a: Assignment, b: Assignment)
    requires Permitted(policy, artifacts, a, b)
    ensures exists k :: 0 <= k < |policy.overlaps|
              && policy.overlaps[k].authorityId == a.authorityId
              && {policy.overlaps[k].first, policy.overlaps[k].second} == {a.principal, b.principal}
              && ArtifactFor(artifacts, policy.overlaps[k].artifact).Some?
  {
    hide ArtifactFor;
    var k :| 0 <= k < |policy.overlaps| && Permits(policy.overlaps[k], artifacts, a, b);
  }

  // ---------------------------------------------------------------- role namespaces

  const BLOCK_ROLES: seq<Role> := [H3Train, H3Validation, H1H2Supplemental]

  predicate BindingOk(common: string, b: Binding) {
    b.role != RoleNotApplicable && Opaque(b.namespaceId) && Opaque(b.parentId) && b.parentId == common
  }

  ghost predicate HasBinding(bindings: seq<Binding>, role: Role) {
    exists k :: 0 <= k < |bindings| && bindings[k].role == role
  }

  /** Different roles, and namespaces that differ from each other and from the common one. */
  ghost predicate BoundOnce(common: string, bindings: seq<Binding>) {
    && (forall k :: 0 <= k < |bindings| ==> BindingOk(common, bindings[k]) && bindings[k].namespaceId != common)
    && (forall j, k :: 0 <= j < k < |bindings| ==>
          bindings[j].role != bindings[k].role && bindings[j].namespaceId != bindings[k].namespaceId)
  }

  ghost predicate NamespacesOk(common: string, bindings: seq<Binding>) {
    && Opaque(common) && BoundOnce(common, bindings)
    && (forall k :: 0 <= k < |BLOCK_ROLES| ==> HasBinding(bindings, BLOCK_ROLES[k]))
    && |bindings| == 3
  }

  method ValidateRoleNamespaces(common: string, bindings: seq<Binding>) returns (errors: seq<PolicyRule>)
    ensures errors == [] <==> NamespacesOk(common, bindings)
  {
    hide Opaque;
    var opaqueErrors := if Opaque(common) then [] else [NamespaceOpaque];
    var bindingErrors, roles := CollectBindings(common, bindings);
    var missing: seq<PolicyRule> := [];
    for k := 0 to |BLOCK_ROLES|
      invariant bindingErrors == [] ==>
        (missing == [] <==> forall j :: 0 <= j < k ==> HasBinding(bindings, BLOCK_ROLES[j]))
    {
      if BLOCK_ROLES[k] !in roles {
        missing := missing + [NamespaceComplete];
      }
    }
    var extra := if |bindings| != |BLOCK_ROLES| then [NamespaceExact] else [];
    errors := opaqueErrors + bindingErrors + missing + extra;
  }

  method CollectBindings(common: string, bindings: seq<Binding>) returns (errors: seq<PolicyRule>, roles: set<Role>)
    ensures errors == [] <==> BoundOnce(common, bindings)
    ensures errors == [] ==> forall r :: r in roles <==> HasBinding(bindings, r)
  {
    hide BindingOk;
    errors, roles := [], {};
    var identifiers := {common};
    for index := 0 to |bindings|
      invariant errors == [] <==>
        && (forall k :: 0 <= k < index ==> BindingOk(common, bindings[k]) && bindings[k].namespaceId != common)
        && (forall j, k :: 0 <= j < k < index ==>
              bindings[j].role != bindings[k].role && bindings[j].namespaceId != bindings[k].namespaceId)
      invariant errors == [] ==> forall r :: r in roles <==> exists k :: 0 <= k < index && bindings[k].role == r
      invariant errors == [] ==> forall id :: id in identifiers <==>
        id == common || exists k :: 0 <= k < index && bindings[k].namespaceId == id
    {
      var b := bindings[index];
      if !BindingOk(common, b) {
        errors := errors + [NamespaceParent];
      }
      if b.role in roles || b.namespaceId in identifiers {
        errors := errors + [NamespaceUnique];
      }
      roles := roles + {b.role};
      identifiers := identifiers + {b.namespaceId};
    }
  }
}
