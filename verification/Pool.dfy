/** The common pool of block plans. */
module Pool {
  import opened Prelude
  import opened Sorting
  import BlockPlan

  datatype Role = H3Train | H3Validation | H1H2Supplemental | RoleNotApplicable

  /** Where a replacement comes from. */
  datatype Lineage = Lineage(
    replacedId: string, authorization: string, replacedOrdinal: u64, replacedRole: Role, replacedSubspace: string)

  datatype PlanRecord = PlanRecord(
    blockId: string, platformId: string, buildId: string, role: Role, ordinal: u64, subspace: string,
    lineage: Option<Lineage>, plan: BlockPlan.Block)

  /** The first block with an identity. */
  function IdIn(blocks: seq<PlanRecord>, id: string): (r: Option<PlanRecord>)
    ensures r.Some? ==> r.value in blocks && r.value.blockId == id
    ensures r.None? ==> forall b :: b in blocks ==> b.blockId != id
  {
    if blocks == [] then None
    else if blocks[0].blockId == id then Some(blocks[0])
    else IdIn(blocks[1..], id)
  }

  predicate Replaces(b: PlanRecord, id: string) { b.lineage.Some? && b.lineage.value.replacedId == id }

  /** Some block of the pool replaces this identity. */
  predicate Replaced(blocks: seq<PlanRecord>, id: string) {
    exists k :: 0 <= k < |blocks| && Replaces(blocks[k], id)
  }

  ghost predicate UniqueIds(blocks: seq<PlanRecord>) {
    forall i, j :: 0 <= i < j < |blocks| ==> blocks[i].blockId != blocks[j].blockId
  }

  lemma IdInUnique(blocks: seq<PlanRecord>, b: PlanRecord)
    requires UniqueIds(blocks) && b in blocks
    ensures IdIn(blocks, b.blockId) == Some(b)
  {
    var found := IdIn(blocks, b.blockId).value;
    var i :| 0 <= i < |blocks| && blocks[i] == b;
    var j :| 0 <= j < |blocks| && blocks[j] == found;
    assert i < j || j < i || i == j;
  }

  predicate InRole(b: PlanRecord, role: Option<Role>) { role.None? || b.role == role.value }

  /** An unreplaced block of the role, or of any role. */
  predicate ActiveIn(blocks: seq<PlanRecord>, role: Option<Role>, b: PlanRecord) {
    !Replaced(blocks, b.blockId) && InRole(b, role)
  }

  ghost predicate NamesActive(blocks: seq<PlanRecord>, role: Option<Role>, id: string) {
    exists k :: 0 <= k < |blocks| && blocks[k].blockId == id && ActiveIn(blocks, role, blocks[k])
  }

  /** A list that names every active block of the role once, and nothing else. */
  ghost predicate ExactAffected(affected: seq<string>, blocks: seq<PlanRecord>, role: Option<Role>) {
    && affected != [] && Distinct(affected)
    && forall id :: id in affected <==> NamesActive(blocks, role, id)
  }

  /** Identities of the active blocks among the first n. */
  ghost function ActiveIds(blocks: seq<PlanRecord>, role: Option<Role>, n: nat): set<string>
    requires n <= |blocks|
  {
    set k | 0 <= k < n && ActiveIn(blocks, role, blocks[k]) :: blocks[k].blockId
  }

  lemma ActiveIdsNames(blocks: seq<PlanRecord>, role: Option<Role>, id: string)
    ensures id in ActiveIds(blocks, role, |blocks|) <==> NamesActive(blocks, role, id)
  {
  }

  method ExactAffectedBlocks(affected: seq<string>, blocks: seq<PlanRecord>, role: Option<Role>) returns (ok: bool)
    ensures ok <==> ExactAffected(affected, blocks, role)
  {
    var expected := CollectActive(blocks, role);
    var actual: set<string> := {};
    for k := 0 to |affected|
      invariant actual == Elements(affected[..k])
    {
      assert affected[..k + 1] == affected[..k] + [affected[k]];
      actual := actual + {affected[k]};
    }
    assert affected[..|affected|] == affected;
    ok := expected != {} && actual == expected && |actual| == |affected|;
    ExactBySets(affected, blocks, role);
  }

  lemma ExactBySets(affected: seq<string>, blocks: seq<PlanRecord>, role: Option<Role>)
    ensures ExactAffected(affected, blocks, role) <==>
      var expected := ActiveIds(blocks, role, |blocks|);
      expected != {} && Elements(affected) == expected && |Elements(affected)| == |affected|
  {
    hide NamesActive, ActiveIds;
    ElementsSize(affected);
    forall id ensures id in ActiveIds(blocks, role, |blocks|) <==> NamesActive(blocks, role, id) {
      ActiveIdsNames(blocks, role, id);
    }
    assert forall id :: id in affected <==> id in Elements(affected);
    if affected != [] {
      assert affected[0] in Elements(affected);
    }
  }

  method CollectActive(blocks: seq<PlanRecord>, role: Option<Role>) returns (expected: set<string>)
    ensures expected == ActiveIds(blocks, role, |blocks|)
  {
    hide Replaced;
    expected := {};
    for k := 0 to |blocks|
      invariant expected == ActiveIds(blocks, role, k)
    {
      if !Replaced(blocks, blocks[k].blockId) && (role.None? || blocks[k].role == role.value) {
        expected := expected + {blocks[k].blockId};
      }
    }
  }
}
