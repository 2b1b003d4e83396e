/** The randomized split-plot block planner and its structural validator. */
module BlockPlan {
  import opened Prelude
  import opened Permutation
  import opened Sorting

  datatype Package = R0 | R1 | R2 | L0 | L1 | NblfqMpsc | PackageNotApplicable
  datatype Hardware = H0 | H1 | HardwareNotApplicable
  datatype Placement = Near | Far | PlacementStageC | PlacementNotApplicable
  datatype WorkingSet = L2Resident | LlcResident | BeyondLlc | WorkingSetNotApplicable
  datatype Load = L025 | L050 | L075 | CalibrationReady | LoadStageC | LoadNotApplicable

  /** What distinguishes cells inside one hardware whole plot. */
  datatype Within = Within(package: Package, placement: Placement, workingSet: WorkingSet, load: Load)

  /** A full factor tuple. */
  datatype Key = Key(hardware: Hardware, within: Within)

  datatype Cell = Cell(ordinal: u64, key: Key, arrivalSeed: string, nodeSeed: Option<string>, eventSeed: string)

  datatype Seeds = Seeds(arrival: seq<string>, node: seq<string>, event: seq<string>)

  datatype Block = Block(first: Hardware, second: Hardware, cells: seq<Cell>)

  datatype Rule =
    | WholePlots | CellCount | NodeSeed | FactorialProduct | CellOrdinals | SeedCardinality
    | SeedOpaque | SeedSeparation
    | FactorDuplicate | OrdinalExact | RegisteredFactors | SeedSharing | FactorialProof
    | WholePlotOrder | WholePlotComposition

  const PACKAGES: seq<Package> := [R0, R1, R2, L0, L1]
  const STATES: seq<Hardware> := [H0, H1]
  const PLACEMENTS: seq<Placement> := [Near, Far]
  const WORKING_SETS: seq<WorkingSet> := [L2Resident, LlcResident, BeyondLlc]
  const LOADS: seq<Load> := [L025, L050, L075]

  predicate Linked(p: Package) { p == L0 || p == L1 }

  function PlacementIndex(p: Placement): Option<nat> {
    match p case Near => Some(0) case Far => Some(1) case _ => None
  }

  function WorkingSetIndex(w: WorkingSet): Option<nat> {
    match w case L2Resident => Some(0) case LlcResident => Some(1) case BeyondLlc => Some(2) case _ => None
  }

  function LoadIndex(l: Load): Option<nat> {
    match l case L025 => Some(0) case L050 => Some(1) case L075 => Some(2) case _ => None
  }

  /** Where a context's persistent arena seeds are. */
  function ArenaIndex(placement: Placement, workingSet: WorkingSet): Option<nat> {
    var p, w := PlacementIndex(placement), WorkingSetIndex(workingSet);
    if p.None? || w.None? then None else Some(p.value * 3 + w.value)
  }

  /** Where a context's arrival seed is. */
  function ArrivalIndex(placement: Placement, workingSet: WorkingSet, load: Load): Option<nat> {
    var a, l := ArenaIndex(placement, workingSet), LoadIndex(load);
    if a.None? || l.None? then None else Some(a.value * 3 + l.value)
  }

  // ---------------------------------------------------------------- factors and their numbering

  ghost function PackageIndex(p: Package): Option<nat> {
    match p
    case R0 => Some(0) case R1 => Some(1) case R2 => Some(2) case L0 => Some(3) case L1 => Some(4)
    case _ => None
  }

  ghost predicate Registered(w: Within) {
    PackageIndex(w.package).Some? && ArrivalIndex(w.placement, w.workingSet, w.load).Some?
  }

  ghost predicate RegisteredKey(k: Key) {
    (k.hardware == H0 || k.hardware == H1) && Registered(k.within)
  }

  /** The k-th of the 90 within-plot tuples, in enumeration order. */
  function WithinAt(k: nat): Within
    requires k < 90
  {
    Within(PACKAGES[k / 18], PLACEMENTS[k / 9 % 2], WORKING_SETS[k / 3 % 3], LOADS[k % 3])
  }

  ghost function WithinIndex(w: Within): nat
    requires Registered(w)
  {
    PackageIndex(w.package).value * 18 + ArrivalIndex(w.placement, w.workingSet, w.load).value
  }

  /** The k-th of the 180 factor tuples, in enumeration order. */
  function KeyAt(k: nat): Key
    requires k < 180
  {
    Key(STATES[k / 18 % 2], WithinAt(k / 36 * 18 + k % 18))
  }

  ghost function KeyIndex(k: Key): nat
    requires RegisteredKey(k)
  {
    var w := WithinIndex(k.within);
    w / 18 * 36 + (if k.hardware == H0 then 0 else 18) + w % 18
  }

  /** The numbering of within-plot tuples is exact in both directions. */
  lemma WithinRoundTrip(w: Within)
    requires Registered(w)
    ensures WithinIndex(w) < 90 && WithinAt(WithinIndex(w)) == w
  {
    var p, l := PackageIndex(w.package).value, PlacementIndex(w.placement).value;
    var s, d := WorkingSetIndex(w.workingSet).value, LoadIndex(w.load).value;
    PackageAtIndex(w.package);
    ContextAtIndex(w);
    WithinSplit(p, l, s, d);
    hide WithinAt, PackageIndex, PlacementIndex, WorkingSetIndex, LoadIndex;
    assert WithinIndex(w) == p * 18 + l * 9 + s * 3 + d;
  }

  lemma PackageAtIndex(p: Package)
    requires PackageIndex(p).Some?
    ensures PackageIndex(p).value < 5 && PACKAGES[PackageIndex(p).value] == p
  {
  }

  lemma ContextAtIndex(w: Within)
    requires Registered(w)
    ensures var l, s, d := PlacementIndex(w.placement), WorkingSetIndex(w.workingSet), LoadIndex(w.load);
            && l.Some? && l.value < 2 && PLACEMENTS[l.value] == w.placement
            && s.Some? && s.value < 3 && WORKING_SETS[s.value] == w.workingSet
            && d.Some? && d.value < 3 && LOADS[d.value] == w.load
  {
  }

  lemma WithinIndexAt(k: nat)
    requires k < 90
    ensures Registered(WithinAt(k)) && WithinIndex(WithinAt(k)) == k
  {
    PackageIndexAt(k / 18);
    PlacementIndexAt(k / 9 % 2);
    WorkingSetIndexAt(k / 3 % 3);
    LoadIndexAt(k % 3);
    hide PackageIndex, PlacementIndex, WorkingSetIndex, LoadIndex;
    WithinDigits(k);
  }

  lemma WithinDigits(k: nat)
    requires k < 90
    ensures k == k / 18 * 18 + (k / 9 % 2 * 3 + k / 3 % 3) * 3 + k % 3
  {
  }

  lemma PackageIndexAt(i: nat)
    requires i < 5
    ensures PackageIndex(PACKAGES[i]) == Some(i)
  {
  }

  lemma PlacementIndexAt(i: nat)
    requires i < 2
    ensures PlacementIndex(PLACEMENTS[i]) == Some(i)
  {
  }

  lemma WorkingSetIndexAt(i: nat)
    requires i < 3
    ensures WorkingSetIndex(WORKING_SETS[i]) == Some(i)
  {
  }

  lemma LoadIndexAt(i: nat)
    requires i < 3
    ensures LoadIndex(LOADS[i]) == Some(i)
  {
  }

  lemma KeyIndexAt(k: nat)
    requires k < 180
    ensures RegisteredKey(KeyAt(k)) && KeyIndex(KeyAt(k)) == k
  {
    hide *;
    KeyJoin(k);
    KeyIndexOfDigits(k, k / 18 % 2, k / 36, k % 18);
  }

  lemma KeyIndexOfDigits(k: nat, h: nat, q: nat, r: nat)
    requires h < 2 && q < 5 && r < 18 && k == q * 36 + h * 18 + r
    ensures RegisteredKey(KeyAt(k)) && KeyIndex(KeyAt(k)) == k
  {
    KeyAtDigits(k, h, q, r);
    StateAt(h);
    hide *;
    WithinIndexAt(q * 18 + r);
    KeyIndexIs(KeyAt(k), h, q, r);
  }

  lemma KeyAtDigits(k: nat, h: nat, q: nat, r: nat)
    requires h < 2 && q < 5 && r < 18 && k == q * 36 + h * 18 + r
    ensures KeyAt(k) == Key(STATES[h], WithinAt(q * 18 + r))
  {
    hide WithinAt;
    KeyDigits(q, h, r);
  }

  /** A tuple's number from its digits. */
  lemma KeyIndexIs(key: Key, h: nat, q: nat, r: nat)
    requires h < 2 && q < 5 && r < 18 && key.hardware == (if h == 0 then H0 else H1)
    requires Registered(key.within) && WithinIndex(key.within) == q * 18 + r
    ensures RegisteredKey(key) && KeyIndex(key) == q * 36 + h * 18 + r
  {
    hide WithinIndex, Registered;
    assert (q * 18 + r) / 18 == q && (q * 18 + r) % 18 == r;
  }

  lemma StateAt(h: nat)
    requires h < 2
    ensures STATES[h] == (if h == 0 then H0 else H1)
  {
  }

  lemma KeyJoin(k: nat)
    requires k < 180
    ensures k / 36 < 5 && k / 18 % 2 < 2 && k % 18 < 18 && k / 36 * 18 + k % 18 < 90
    ensures k == k / 36 * 36 + k / 18 % 2 * 18 + k % 18
  {
  }

  lemma KeyRoundTrip(k: Key)
    requires RegisteredKey(k)
    ensures KeyIndex(k) < 180 && KeyAt(KeyIndex(k)) == k
  {
    WithinRoundTrip(k.within);
    hide *;
    var w := WithinIndex(k.within);
    var q, h, r := w / 18, if k.hardware == H0 then 0 else 1, w % 18;
    StateAt(h);
    KeyIndexIs(k, h, q, r);
    KeyAtDigits(KeyIndex(k), h, q, r);
  }

  // ---------------------------------------------------------------- generation

  /** A cell with the seed references of its context; only linked packages have a node seed. */
  function GenCell(seeds: Seeds, hardware: Hardware, w: Within, ordinal: u64): Cell
    requires Registered(w) && SeedsComplete(seeds)
  {
    var arena := ArenaIndex(w.placement, w.workingSet).value;
    Cell(ordinal, Key(hardware, w),
         seeds.arrival[ArrivalIndex(w.placement, w.workingSet, w.load).value],
         if Linked(w.package) then Some(seeds.node[arena]) else None,
         seeds.event[arena])
  }

  predicate SeedsComplete(seeds: Seeds) {
    |seeds.arrival| == 18 && |seeds.node| == 6 && |seeds.event| == 6
  }

  /** An identity that cannot be read as a path. */
  predicate Opaque(s: string) { s != "" && '/' !in s && '\\' !in s }

  function AllSeeds(seeds: Seeds): seq<string> { seeds.arrival + seeds.node + seeds.event }

  /** No identity serves twice, within a domain or across the three. */
  ghost predicate SeedsSeparated(seeds: Seeds) {
    && Distinct(AllSeeds(seeds))
    && forall k :: 0 <= k < |AllSeeds(seeds)| ==> Opaque(AllSeeds(seeds)[k])
  }

  ghost predicate SeedsOk(seeds: Seeds) { SeedsComplete(seeds) && SeedsSeparated(seeds) }

  /** Cardinality, opaqueness and domain separation of a block's seed identities. */
  method ValidateSeedCatalog(seeds: Seeds) returns (errors: seq<Rule>)
    ensures errors == [] <==> SeedsOk(seeds)
  {
    errors := if SeedsComplete(seeds) then [] else [SeedCardinality];
    ghost var early := errors;
    var values := AllSeeds(seeds);
    hide Opaque;
    var identifiers: set<string> := {};
    for index := 0 to |values|
      invariant forall id :: id in identifiers <==> exists k :: 0 <= k < index && values[k] == id
      invariant errors == [] <==>
        && early == [] && (forall i, j :: 0 <= i < j < index ==> values[i] != values[j])
        && (forall k :: 0 <= k < index ==> Opaque(values[k]))
    {
      if !Opaque(values[index]) {
        errors := errors + [SeedOpaque];
      }
      if values[index] in identifiers {
        errors := errors + [SeedSeparation];
      }
      identifiers := identifiers + {values[index]};
    }
  }

  /** The randomization of a block: which plot comes first and each plot's order. */
  datatype Orders = Orders(plots: seq<nat>, h0: seq<nat>, h1: seq<nat>)

  ghost predicate OrdersOk(o: Orders) {
    IsPermutation(o.plots, 2) && IsPermutation(o.h0, 90) && IsPermutation(o.h1, 90)
  }

  /** The hardware state at a logical ordinal. */
  ghost function PlotState(o: Orders, k: nat): Hardware
    requires OrdersOk(o) && k < 180
  {
    STATES[o.plots[if k < 90 then 0 else 1]]
  }

  /** The within-plot tuple number at a logical ordinal. */
  ghost function Selected(o: Orders, k: nat): (r: nat)
    requires OrdersOk(o) && k < 180
    ensures r < 90
  {
    var j := if k < 90 then k else k - 90;
    if PlotState(o, k) == H0 then o.h0[j] else o.h1[j]
  }

  /** The cell the randomization puts at a logical ordinal. */
  ghost function PlannedCell(seeds: Seeds, o: Orders, k: nat): Cell
    requires OrdersOk(o) && SeedsComplete(seeds) && k < 180
  {
    WithinIndexAt(Selected(o, k));
    GenCell(seeds, PlotState(o, k), WithinAt(Selected(o, k)), k)
  }

  /** The base list of 90 tuples. */
  method BaseTuples() returns (base: seq<Within>)
    ensures |base| == 90 && forall k :: 0 <= k < 90 ==> base[k] == WithinAt(k)
  {
    hide WithinAt;
    base := [];
    for p := 0 to 5
      invariant |base| == p * 18 && forall k :: 0 <= k < |base| ==> base[k] == WithinAt(k)
    {
      for l := 0 to 2
        invariant |base| == p * 18 + l * 9 && forall k :: 0 <= k < |base| ==> base[k] == WithinAt(k)
      {
        for w := 0 to 3
          invariant |base| == p * 18 + l * 9 + w * 3 && forall k :: 0 <= k < |base| ==> base[k] == WithinAt(k)
        {
          for d := 0 to 3
            invariant |base| == p * 18 + l * 9 + w * 3 + d && forall k :: 0 <= k < |base| ==> base[k] == WithinAt(k)
          {
            WithinSplit(p, l, w, d);
            base := base + [Within(PACKAGES[p], PLACEMENTS[l], WORKING_SETS[w], LOADS[d])];
          }
        }
      }
    }
  }

  lemma WithinSplit(p: nat, l: nat, w: nat, d: nat)
    requires p < 5 && l < 2 && w < 3 && d < 3
    ensures WithinAt(p * 18 + l * 9 + w * 3 + d) == Within(PACKAGES[p], PLACEMENTS[l], WORKING_SETS[w], LOADS[d])
  {
    var k := p * 18 + l * 9 + w * 3 + d;
    assert k / 18 == p && k / 9 % 2 == l && k / 3 % 3 == w && k % 3 == d;
  }

  /** The registered product, in enumeration order. */
  method ExpectedStageACells() returns (keys: seq<Key>)
    ensures |keys| == 180 && forall k :: 0 <= k < 180 ==> keys[k] == KeyAt(k)
  {
    hide KeyAt;
    keys := [];
    for p := 0 to 5
      invariant |keys| == p * 36 && forall k :: 0 <= k < |keys| ==> keys[k] == KeyAt(k)
    {
      for h := 0 to 2
        invariant |keys| == p * 36 + h * 18 && forall k :: 0 <= k < |keys| ==> keys[k] == KeyAt(k)
      {
        for l := 0 to 2
          invariant |keys| == p * 36 + h * 18 + l * 9 && forall k :: 0 <= k < |keys| ==> keys[k] == KeyAt(k)
        {
          for w := 0 to 3
            invariant |keys| == p * 36 + h * 18 + l * 9 + w * 3 && forall k :: 0 <= k < |keys| ==> keys[k] == KeyAt(k)
          {
            for d := 0 to 3
              invariant |keys| == p * 36 + h * 18 + l * 9 + w * 3 + d
              invariant forall k :: 0 <= k < |keys| ==> keys[k] == KeyAt(k)
            {
              KeyAtSplit(p, h, l, w, d);
              keys := keys + [Key(STATES[h], Within(PACKAGES[p], PLACEMENTS[l], WORKING_SETS[w], LOADS[d]))];
            }
          }
        }
      }
    }
  }

  lemma KeyAtSplit(p: nat, h: nat, l: nat, w: nat, d: nat)
    requires p < 5 && h < 2 && l < 2 && w < 3 && d < 3
    ensures p * 36 + h * 18 + l * 9 + w * 3 + d < 180
    ensures KeyAt(p * 36 + h * 18 + l * 9 + w * 3 + d)
         == Key(STATES[h], Within(PACKAGES[p], PLACEMENTS[l], WORKING_SETS[w], LOADS[d]))
  {
    WithinSplit(p, l, w, d);
    hide WithinAt;
    var r := l * 9 + w * 3 + d;
    KeyDigits(p, h, r);
  }

  lemma KeyDigits(p: nat, h: nat, r: nat)
    requires p < 5 && h < 2 && r < 18
    ensures var k := p * 36 + h * 18 + r;
            k < 180 && k / 36 == p && k / 18 % 2 == h && k % 18 == r
  {
  }

  /** Generates a block's plan from its seed catalog and randomization. */
  method GenerateBlockPlan(seeds: Seeds, o: Orders) returns (r: Result<Block, seq<Rule>>)
    requires OrdersOk(o)
    ensures r.Ok? <==> SeedsOk(seeds)
    ensures r.Ok? ==>
      && r.value.first == PlotState(o, 0) && r.value.second == PlotState(o, 90)
      && |r.value.cells| == 180
      && forall k :: 0 <= k < 180 ==> r.value.cells[k] == PlannedCell(seeds, o, k)
  {
    var seedErrors := ValidateSeedCatalog(seeds);
    if seedErrors != [] {
      return Err(seedErrors);
    }
    var plots := [STATES[o.plots[0]], STATES[o.plots[1]]];
    var cells := PlanCells(seeds, o, plots);
    PlotOrder(o);
    return Ok(Block(plots[0], plots[1], cells));
  }

  /** The cells of both plots, in logical order. */
  method PlanCells(seeds: Seeds, o: Orders, plots: seq<Hardware>) returns (cells: seq<Cell>)
    requires OrdersOk(o) && SeedsComplete(seeds) && plots == [STATES[o.plots[0]], STATES[o.plots[1]]]
    ensures |cells| == 180 && forall k :: 0 <= k < 180 ==> cells[k] == PlannedCell(seeds, o, k)
  {
    PermutationLength(o);
    hide WithinAt, IsPermutation, GenCell, Registered, PlannedCell, PlotState, OrdersOk;
    var base := BaseTuples();
    cells := [];
    for p := 0 to 2
      invariant |cells| == p * 90 && PlannedSoFar(seeds, o, cells)
    {
      hide PlannedSoFar;
      var order := if plots[p] == H0 then o.h0 else o.h1;
      for j := 0 to 90
        invariant |cells| == p * 90 + j && PlannedSoFar(seeds, o, cells)
      {
        PlannedAt(seeds, o, p, j);
        var w := base[order[j]];
        PlannedNext(seeds, o, cells, GenCell(seeds, plots[p], w, |cells|));
        cells := cells + [GenCell(seeds, plots[p], w, |cells|)];
      }
    }
  }

  ghost predicate PlannedSoFar(seeds: Seeds, o: Orders, cells: seq<Cell>)
    requires OrdersOk(o) && SeedsComplete(seeds) && |cells| <= 180
  {
    forall k :: 0 <= k < |cells| ==> cells[k] == PlannedCell(seeds, o, k)
  }

  lemma PlannedNext(seeds: Seeds, o: Orders, cells: seq<Cell>, c: Cell)
    requires OrdersOk(o) && SeedsComplete(seeds) && |cells| < 180 && PlannedSoFar(seeds, o, cells)
    requires c == PlannedCell(seeds, o, |cells|)
    ensures PlannedSoFar(seeds, o, cells + [c])
  {
    hide OrdersOk, PlannedCell;
  }

  lemma PlotOrder(o: Orders)
    requires OrdersOk(o)
    ensures PlotState(o, 0) == STATES[o.plots[0]] && PlotState(o, 90) == STATES[o.plots[1]]
  {
  }

  /** The cell at place j of plot p. */
  lemma PlannedAt(seeds: Seeds, o: Orders, p: nat, j: nat)
    requires OrdersOk(o) && SeedsComplete(seeds) && p < 2 && j < 90
    ensures var state := STATES[o.plots[p]];
            var selected := (if state == H0 then o.h0 else o.h1)[j];
            && selected < 90 && Registered(WithinAt(selected))
            && PlannedCell(seeds, o, p * 90 + j) == GenCell(seeds, state, WithinAt(selected), p * 90 + j)
  {
    var k := p * 90 + j;
    assert PlotState(o, k) == STATES[o.plots[p]];
    assert Selected(o, k) == (if PlotState(o, k) == H0 then o.h0 else o.h1)[j];
    WithinIndexAt(Selected(o, k));
    hide WithinAt, GenCell, Registered;
  }

  lemma PermutationLength(o: Orders)
    requires OrdersOk(o)
    ensures |o.plots| == 2 && |o.h0| == 90 && |o.h1| == 90
  {
  }

  /**
   The generated plan in plain terms. Place j of plot p has the ordinal 90 p + j and the hardware state the plot
   order puts there; its tuple is number n of the order drawn for that state, counting loads fastest, then working
   sets, placements and packages; its arrival seed is its context's of 18, its event seed its arena's of 6, and
   exactly the linked packages, numbers 54 and up, have their arena's node seed.
   */
  lemma PlannedCellIs(seeds: Seeds, o: Orders, p: nat, j: nat)
    requires OrdersOk(o) && SeedsComplete(seeds) && p < 2 && j < 90
    ensures var n := if o.plots[p] == 0 then o.h0[j] else o.h1[j];
            && n < 90
            && PlannedCell(seeds, o, 90 * p + j) == Cell(
                 90 * p + j,
                 Key(if o.plots[p] == 0 then H0 else H1,
                     Within([R0, R1, R2, L0, L1][n / 18], [Near, Far][n / 9 % 2],
                            [L2Resident, LlcResident, BeyondLlc][n / 3 % 3], [L025, L050, L075][n % 3])),
                 seeds.arrival[n % 18], if n >= 54 then Some(seeds.node[n % 18 / 3]) else None,
                 seeds.event[n % 18 / 3])
  {
    hide IsPermutation;
    PlannedAt(seeds, o, p, j);
    PlotStates(o, p);
    hide OrdersOk, PlannedCell;
    GenCellIs(seeds, if o.plots[p] == 0 then H0 else H1, if o.plots[p] == 0 then o.h0[j] else o.h1[j], 90 * p + j);
    hide GenCell, WithinAt;
  }

  lemma PlotStates(o: Orders, p: nat)
    requires OrdersOk(o) && p < 2
    ensures |o.plots| == 2 && |o.h0| == 90 && |o.h1| == 90
    ensures o.plots[p] < 2 && STATES[o.plots[p]] == if o.plots[p] == 0 then H0 else H1
  {
  }

  lemma GenCellIs(seeds: Seeds, state: Hardware, n: nat, ordinal: u64)
    requires SeedsComplete(seeds) && n < 90 && Registered(WithinAt(n))
    ensures GenCell(seeds, state, WithinAt(n), ordinal) == Cell(
              ordinal,
              Key(state, Within([R0, R1, R2, L0, L1][n / 18], [Near, Far][n / 9 % 2],
                                [L2Resident, LlcResident, BeyondLlc][n / 3 % 3], [L025, L050, L075][n % 3])),
              seeds.arrival[n % 18], if n >= 54 then Some(seeds.node[n % 18 / 3]) else None, seeds.event[n % 18 / 3])
  {
    PackageIndexAt(n / 18);
    PlacementIndexAt(n / 9 % 2);
    WorkingSetIndexAt(n / 3 % 3);
    LoadIndexAt(n % 3);
    ContextDigits(n);
    LinkedFrom(n / 18);
    hide PackageIndex, PlacementIndex, WorkingSetIndex, LoadIndex, Linked;
  }

  lemma ContextDigits(n: nat)
    requires n < 90
    ensures n % 18 / 3 == n / 9 % 2 * 3 + n / 3 % 3 && n % 18 == (n / 9 % 2 * 3 + n / 3 % 3) * 3 + n % 3
    ensures n >= 54 <==> n / 18 >= 3
  {
    WithinDigits(n);
    RestDigits(n / 18, n / 9 % 2, n / 3 % 3, n % 3, n);
  }

  lemma RestDigits(q: nat, l: nat, w: nat, d: nat, n: nat)
    requires l < 2 && w < 3 && d < 3 && n == q * 18 + (l * 3 + w) * 3 + d
    ensures n % 18 == (l * 3 + w) * 3 + d && n % 18 / 3 == l * 3 + w && (n >= 54 <==> q >= 3)
  {
  }

  lemma LinkedFrom(i: nat)
    requires i < 5
    ensures Linked(PACKAGES[i]) <==> i >= 3
  {
  }
}
