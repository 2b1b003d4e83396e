/** Structural validation of a block plan, and what it accepts. */
module BlockValidation {
  import opened Prelude
  import opened Permutation
  import opened BlockPlan
  import opened Sorting

  // ---------------------------------------------------------------- what an accepted plan is

  predicate WholePlotsOk(b: Block) {
    (b.first == H0 && b.second == H1) || (b.first == H1 && b.second == H0)
  }

  ghost predicate DistinctKeys(cells: seq<Cell>, n: nat)
    requires n <= |cells|
  {
    forall i, j :: 0 <= i < j < n ==> cells[i].key != cells[j].key
  }

  ghost predicate OrdinalsExact(cells: seq<Cell>, n: nat)
    requires n <= |cells|
  {
    && (forall i :: 0 <= i < n ==> cells[i].ordinal < 180)
    && (forall i, j :: 0 <= i < j < n ==> cells[i].ordinal != cells[j].ordinal)
  }

  function PlotOf(b: Block, ordinal: nat): Hardware {
    if ordinal < 90 then b.first else b.second
  }

  /** A registered tuple, in the plot its ordinal says, with exactly its context's seed references. */
  ghost predicate CellExact(b: Block, seeds: Seeds, c: Cell)
    requires SeedsComplete(seeds)
  {
    && RegisteredKey(c.key)
    && c == GenCell(seeds, c.key.hardware, c.key.within, c.ordinal)
    && c.key.hardware == PlotOf(b, c.ordinal)
  }

  /** The structure of an accepted plan. */
  ghost predicate Structural(b: Block, seeds: Seeds) {
    && WholePlotsOk(b)
    && SeedsOk(seeds)
    && |b.cells| == 180
    && DistinctKeys(b.cells, 180)
    && OrdinalsExact(b.cells, 180)
    && forall i :: 0 <= i < 180 ==> CellExact(b, seeds, b.cells[i])
  }

  // ---------------------------------------------------------------- the individual checks

  ghost function KeySet(cells: seq<Cell>, n: nat): set<Key>
    requires n <= |cells|
  {
    set i | 0 <= i < n :: cells[i].key
  }

  ghost function OrdinalSet(cells: seq<Cell>, n: nat): set<nat>
    requires n <= |cells|
  {
    set i | 0 <= i < n :: cells[i].ordinal
  }

  ghost predicate LocalOk(b: Block) {
    && WholePlotsOk(b) && |b.cells| == 180
    && |KeySet(b.cells, |b.cells|)| == 180
    && |OrdinalSet(b.cells, |b.cells|)| == 180
    && (forall o: nat :: o < 180 ==> o in OrdinalSet(b.cells, |b.cells|))
    && (forall i :: 0 <= i < |b.cells| ==> NodeShape(b.cells[i]))
  }

  predicate NodeShape(c: Cell) { Linked(c.key.within.package) == c.nodeSeed.Some? }

  /** The record-local checks. */
  method ValidateBlock(b: Block) returns (errors: seq<Rule>)
    ensures errors == [] <==> LocalOk(b)
  {
    errors := [];
    if b.first == b.second || (b.first != H0 && b.second != H0) || (b.first != H1 && b.second != H1) {
      errors := errors + [WholePlots];
    }
    if |b.cells| != 180 {
      errors := errors + [CellCount];
    }
    var nodeErrors, keys, ordinals := CollectCells(b.cells);
    errors := errors + nodeErrors;
    hide KeySet, OrdinalSet, NodeShape;
    if |keys| != 180 {
      errors := errors + [FactorialProduct];
    }
    var complete := CoversOrdinals(ordinals);
    if !complete {
      errors := errors + [CellOrdinals];
    }
  }

  method CollectCells(cells: seq<Cell>) returns (errors: seq<Rule>, keys: set<Key>, ordinals: set<nat>)
    ensures keys == KeySet(cells, |cells|) && ordinals == OrdinalSet(cells, |cells|)
    ensures errors == [] <==> forall i :: 0 <= i < |cells| ==> NodeShape(cells[i])
  {
    errors, keys, ordinals := [], {}, {};
    for index := 0 to |cells|
      invariant keys == KeySet(cells, index) && ordinals == OrdinalSet(cells, index)
      invariant errors == [] <==> forall i :: 0 <= i < index ==> NodeShape(cells[i])
    {
      var c := cells[index];
      keys := keys + {c.key};
      ordinals := ordinals + {c.ordinal};
      if Linked(c.key.within.package) != c.nodeSeed.Some? {
        errors := errors + [NodeSeed];
      }
    }
  }

  method CoversOrdinals(ordinals: set<nat>) returns (complete: bool)
    ensures complete <==> |ordinals| == 180 && forall o: nat :: o < 180 ==> o in ordinals
  {
    complete := |ordinals| == 180;
    var o: nat := 0;
    while o < 180 && complete
      invariant o <= 180
      invariant complete <==> |ordinals| == 180 && forall k: nat :: k < o ==> k in ordinals
    {
      complete := o in ordinals;
      o := o + 1;
    }
  }

  /** The seed references a cell must carry, whatever its package. */
  predicate SeedsMatch(c: Cell, seeds: Seeds) {
    var w := c.key.within;
    var arrival, arena := ArrivalIndex(w.placement, w.workingSet, w.load), ArenaIndex(w.placement, w.workingSet);
    && arrival.Some? && arena.Some?
    && arrival.value < |seeds.arrival| && arena.value < |seeds.event| && arena.value < |seeds.node|
    && c.arrivalSeed == seeds.arrival[arrival.value] && c.eventSeed == seeds.event[arena.value]
    && c.nodeSeed == if Linked(w.package) then Some(seeds.node[arena.value]) else None
  }

  /** The first n cells draw no error in the scan. */
  ghost predicate Clean(cells: seq<Cell>, seeds: Seeds, n: nat)
    requires n <= |cells|
  {
    DistinctKeys(cells, n) && OrdinalsExact(cells, n) && forall i :: 0 <= i < n ==> SeedsMatch(cells[i], seeds)
  }

  ghost predicate FromCell(cells: seq<Cell>, n: nat, o: nat, c: Cell)
    requires n <= |cells|
  {
    exists i :: 0 <= i < n && cells[i] == c && c.ordinal == o
  }

  /** The table lists the first n cells by ordinal. */
  ghost predicate Indexed(table: seq<Option<Cell>>, cells: seq<Cell>, n: nat)
    requires n <= |cells|
  {
    && |table| == 180
    && (forall i :: 0 <= i < n ==> cells[i].ordinal < 180 && table[cells[i].ordinal] == Some(cells[i]))
    && (forall o :: 0 <= o < 180 && table[o].Some? ==> FromCell(cells, n, o, table[o].value))
  }

  /** The scan's checks of one cell, given what came before it. */
  ghost predicate NewClean(cells: seq<Cell>, seeds: Seeds, n: nat)
    requires n < |cells|
  {
    && (forall i :: 0 <= i < n ==> cells[i].key != cells[n].key && cells[i].ordinal != cells[n].ordinal)
    && cells[n].ordinal < 180 && SeedsMatch(cells[n], seeds)
  }

  lemma CleanStep(cells: seq<Cell>, seeds: Seeds, n: nat)
    requires n < |cells|
    ensures Clean(cells, seeds, n + 1) <==> Clean(cells, seeds, n) && NewClean(cells, seeds, n)
  {
    hide SeedsMatch;
  }

  lemma IndexedStep(table: seq<Option<Cell>>, cells: seq<Cell>, n: nat)
    requires n < |cells| && Indexed(table, cells, n) && cells[n].ordinal < 180
    ensures table[cells[n].ordinal].Some? <==> exists i :: 0 <= i < n && cells[i].ordinal == cells[n].ordinal
    ensures table[cells[n].ordinal].None? ==> Indexed(table[cells[n].ordinal := Some(cells[n])], cells, n + 1)
  {
    var o := cells[n].ordinal;
    if table[o].None? {
      var next := table[o := Some(cells[n])];
      forall q | 0 <= q < 180 && next[q].Some? ensures FromCell(cells, n + 1, q, next[q].value) {
        if q != o {
          assert FromCell(cells, n, q, table[q].value);
        }
      }
    } else {
      assert FromCell(cells, n, o, table[o].value);
    }
  }

  /** Checks one cell against the table of earlier ones. */
  method ScanCell(c: Cell, seeds: Seeds, actual: set<Key>, byOrdinal: array<Option<Cell>>) returns (errors: seq<Rule>)
    requires byOrdinal.Length == 180
    modifies byOrdinal
    ensures errors == [] <==>
      && c.key !in actual && c.ordinal < 180 && old(byOrdinal[..])[c.ordinal].None? && SeedsMatch(c, seeds)
    ensures errors == [] ==> byOrdinal[..] == old(byOrdinal[..])[c.ordinal := Some(c)]
  {
    errors := if c.key in actual then [FactorDuplicate] else [];
    if c.ordinal >= 180 || byOrdinal[c.ordinal].Some? {
      return errors + [OrdinalExact];
    }
    byOrdinal[c.ordinal] := Some(c);
    var w := c.key.within;
    var arrival, arena := ArrivalIndex(w.placement, w.workingSet, w.load), ArenaIndex(w.placement, w.workingSet);
    if arrival.None? || arena.None? || arrival.value >= |seeds.arrival|
       || arena.value >= |seeds.event| || arena.value >= |seeds.node| {
      return errors + [RegisteredFactors];
    }
    if c.arrivalSeed != seeds.arrival[arrival.value] || c.eventSeed != seeds.event[arena.value]
       || (Linked(w.package) && (c.nodeSeed.None? || c.nodeSeed.value != seeds.node[arena.value]))
       || (!Linked(w.package) && c.nodeSeed.Some?) {
      errors := errors + [SeedSharing];
    }
  }

  /** The scan over all cells, filling the table of ordinals. */
  method ScanCells(cells: seq<Cell>, seeds: Seeds, byOrdinal: array<Option<Cell>>)
    returns (errors: seq<Rule>, actual: set<Key>)
    requires byOrdinal.Length == 180 && forall o :: 0 <= o < 180 ==> byOrdinal[o] == None
    modifies byOrdinal
    ensures errors == [] <==> Clean(cells, seeds, |cells|)
    ensures actual == KeySet(cells, |cells|)
    ensures errors == [] ==> Indexed(byOrdinal[..], cells, |cells|)
  {
    hide SeedsMatch;
    errors, actual := [], {};
    for index := 0 to |cells|
      invariant actual == KeySet(cells, index)
      invariant errors == [] <==> Clean(cells, seeds, index)
      invariant errors == [] ==> Indexed(byOrdinal[..], cells, index)
    {
      CleanStep(cells, seeds, index);
      hide Clean, Indexed;
      if errors == [] && cells[index].ordinal < 180 {
        IndexedStep(byOrdinal[..], cells, index);
      }
      var more := ScanCell(cells[index], seeds, actual, byOrdinal);
      actual := actual + {cells[index].key};
      errors := errors + more;
    }
  }

  ghost predicate Factorial(cells: seq<Cell>, actual: set<Key>) {
    |cells| == 180 && |actual| == 180 && forall k: nat :: k < 180 ==> KeyAt(k) in actual
  }

  method IsFactorial(cells: seq<Cell>, actual: set<Key>) returns (ok: bool)
    ensures ok <==> Factorial(cells, actual)
  {
    var expected := ExpectedStageACells();
    hide KeyAt;
    ok := |cells| == 180 && |actual| == |expected|;
    for k := 0 to |expected|
      invariant ok <==> |cells| == 180 && |actual| == 180 && forall j: nat :: j < k ==> KeyAt(j) in actual
    {
      ok := ok && expected[k] in actual;
    }
  }

  ghost predicate PlotsFollow(b: Block, table: seq<Option<Cell>>) {
    |table| == 180 && forall o :: 0 <= o < 180 ==> table[o].Some? && table[o].value.key.hardware == PlotOf(b, o)
  }

  method CheckPlotOrder(b: Block, byOrdinal: array<Option<Cell>>) returns (errors: seq<Rule>)
    requires byOrdinal.Length == 180
    ensures errors == [] <==> PlotsFollow(b, byOrdinal[..])
  {
    for o := 0 to 180
      invariant forall q :: 0 <= q < o ==> byOrdinal[q].Some? && byOrdinal[q].value.key.hardware == PlotOf(b, q)
    {
      if byOrdinal[o].None? {
        return [OrdinalExact];
      }
      var expected := if o < 90 then b.first else b.second;
      if byOrdinal[o].value.key.hardware != expected {
        return [WholePlotOrder];
      }
    }
    return [];
  }

  ghost function WithinSet(table: seq<Option<Cell>>, begin: nat, end: nat): set<Within>
    requires begin <= end <= |table|
  {
    set o | begin <= o < end && table[o].Some? :: table[o].value.key.within
  }

  method CheckComposition(byOrdinal: array<Option<Cell>>) returns (errors: seq<Rule>)
    requires byOrdinal.Length == 180
    ensures errors == [] <==>
      |WithinSet(byOrdinal[..], 0, 90)| == 90 && |WithinSet(byOrdinal[..], 90, 180)| == 90
  {
    errors := [];
    for plot := 0 to 2
      invariant plot == 0 ==> errors == []
      invariant plot == 1 ==> (errors == [] <==> |WithinSet(byOrdinal[..], 0, 90)| == 90)
      invariant plot == 2 ==> (errors == [] <==>
        |WithinSet(byOrdinal[..], 0, 90)| == 90 && |WithinSet(byOrdinal[..], 90, 180)| == 90)
    {
      var within := CollectWithin(byOrdinal, plot * 90, plot * 90 + 90);
      hide WithinSet;
      if |within| != 90 {
        errors := errors + [WholePlotComposition];
      }
    }
  }

  method CollectWithin(byOrdinal: array<Option<Cell>>, begin: nat, end: nat) returns (within: set<Within>)
    requires byOrdinal.Length == 180 && begin <= end <= 180
    ensures within == WithinSet(byOrdinal[..], begin, end)
  {
    within := {};
    for o := begin to end
      invariant within == WithinSet(byOrdinal[..], begin, o)
    {
      if byOrdinal[o].Some? {
        within := within + {byOrdinal[o].value.key.within};
      }
    }
  }

  /** All of the validator's structural checks. */
  method ValidateBlockPlan(b: Block, seeds: Seeds) returns (errors: seq<Rule>)
    ensures errors == [] <==> Structural(b, seeds)
  {
    errors := ValidateSeedCatalog(seeds);
    hide SeedsOk;
    var localErrors := ValidateBlock(b);
    var byOrdinal := new Option<Cell>[180](_ => None);
    var scanErrors, actual := ScanCells(b.cells, seeds, byOrdinal);
    var factorial := IsFactorial(b.cells, actual);
    var orderErrors := CheckPlotOrder(b, byOrdinal);
    var compositionErrors := CheckComposition(byOrdinal);
    errors := errors + localErrors + scanErrors + (if factorial then [] else [FactorialProof])
      + orderErrors + compositionErrors;
    hide Structural, LocalOk, Clean, Factorial, PlotsFollow, WithinSet, Indexed;
    if scanErrors == [] {
      ghost var table := byOrdinal[..];
      if SeedsOk(seeds) && LocalOk(b) && Factorial(b.cells, actual) && PlotsFollow(b, table) {
        ChecksAreSound(b, seeds, table);
      }
      if Structural(b, seeds) {
        ChecksAreComplete(b, seeds, table);
      }
    } else if Structural(b, seeds) {
      StructuralIsClean(b, seeds);
    }
  }

  // ---------------------------------------------------------------- counting

  /** A set that a sequence lists without repetition has the sequence's length. */
  lemma ListedSize<T>(s: seq<T>, all: set<T>)
    requires Distinct(s)
    requires forall i :: 0 <= i < |s| ==> s[i] in all
    requires forall x :: x in all ==> x in s
    ensures |all| == |s|
  {
    ElementsSize(s);
    assert Elements(s) == all;
  }

  lemma SubsetOfSameSize<T>(a: set<T>, b: set<T>)
    requires a <= b && |a| == |b|
    ensures a == b
  {
    assert b == a + (b - a);
  }

  ghost function KeysAt(): set<Key> { set k: nat | k < 180 :: KeyAt(k) }

  lemma KeysAtSize()
    ensures |KeysAt()| == 180
  {
    var all := seq(180, k requires 0 <= k < 180 => KeyAt(k));
    forall i, j | 0 <= i < j < |all| ensures all[i] != all[j] {
      KeyIndexAt(i);
      KeyIndexAt(j);
    }
    hide KeyAt;
    forall x | x in KeysAt() ensures x in all {
      var k: nat :| k < 180 && KeyAt(k) == x;
      assert all[k] == x;
    }
    ListedSize(all, KeysAt());
  }

  // ---------------------------------------------------------------- soundness and completeness

  /** Exactly the registered tuples: covering 180 with 180 leaves room for no other. */
  lemma FactorialIsRegistered(cells: seq<Cell>, i: nat)
    requires Factorial(cells, KeySet(cells, |cells|)) && i < |cells|
    ensures RegisteredKey(cells[i].key)
  {
    hide KeyAt, RegisteredKey;
    KeysAtSize();
    SubsetOfSameSize(KeysAt(), KeySet(cells, |cells|));
    assert cells[i].key in KeysAt();
    var k: nat :| k < 180 && cells[i].key == KeyAt(k);
    KeyIndexAt(k);
  }

  lemma MatchIsExact(c: Cell, seeds: Seeds)
    requires SeedsComplete(seeds) && RegisteredKey(c.key)
    ensures SeedsMatch(c, seeds) <==> c == GenCell(seeds, c.key.hardware, c.key.within, c.ordinal)
  {
    ContextAtIndex(c.key.within);
  }

  lemma ChecksAreSound(b: Block, seeds: Seeds, table: seq<Option<Cell>>)
    requires SeedsOk(seeds) && LocalOk(b) && Clean(b.cells, seeds, |b.cells|)
    requires Factorial(b.cells, KeySet(b.cells, |b.cells|))
    requires Indexed(table, b.cells, |b.cells|) && PlotsFollow(b, table)
    ensures Structural(b, seeds)
  {
    forall i | 0 <= i < 180 ensures CellExact(b, seeds, b.cells[i]) {
      CellIsExact(b, seeds, table, i);
    }
    hide LocalOk, CellExact, SeedsMatch, Indexed, PlotsFollow, DistinctKeys, OrdinalsExact;
    assert WholePlotsOk(b) by {
      PlotsOfLocal(b);
    }
  }

  lemma PlotsOfLocal(b: Block)
    requires LocalOk(b)
    ensures WholePlotsOk(b)
  {
  }

  lemma CellIsExact(b: Block, seeds: Seeds, table: seq<Option<Cell>>, i: nat)
    requires SeedsComplete(seeds) && Clean(b.cells, seeds, |b.cells|)
    requires Factorial(b.cells, KeySet(b.cells, |b.cells|)) && i < |b.cells|
    requires Indexed(table, b.cells, |b.cells|) && PlotsFollow(b, table)
    ensures CellExact(b, seeds, b.cells[i])
  {
    var c := b.cells[i];
    FactorialIsRegistered(b.cells, i);
    hide RegisteredKey, Factorial, SeedsMatch;
    MatchIsExact(c, seeds);
    assert table[c.ordinal] == Some(c);
  }

  lemma StructuralIsClean(b: Block, seeds: Seeds)
    requires Structural(b, seeds)
    ensures Clean(b.cells, seeds, |b.cells|)
  {
    hide SeedsMatch, RegisteredKey, DistinctKeys, OrdinalsExact;
    forall i | 0 <= i < 180 ensures SeedsMatch(b.cells[i], seeds) {
      assert CellExact(b, seeds, b.cells[i]);
      MatchIsExact(b.cells[i], seeds);
    }
  }

  lemma ChecksAreComplete(b: Block, seeds: Seeds, table: seq<Option<Cell>>)
    requires Structural(b, seeds) && Indexed(table, b.cells, |b.cells|)
    ensures SeedsOk(seeds) && LocalOk(b) && Factorial(b.cells, KeySet(b.cells, |b.cells|))
    ensures PlotsFollow(b, table)
    ensures |WithinSet(table, 0, 90)| == 90 && |WithinSet(table, 90, 180)| == 90
  {
    hide *;
    StructuralSizes(b, seeds, table);
    StructuralIsLocal(b, seeds);
    StructuralIsFactorial(b, seeds);
    StructuralFollows(b, seeds, table);
    PlotComposition(b, seeds, table, 0);
    PlotComposition(b, seeds, table, 90);
  }

  lemma StructuralSizes(b: Block, seeds: Seeds, table: seq<Option<Cell>>)
    requires Structural(b, seeds) && Indexed(table, b.cells, |b.cells|)
    ensures SeedsOk(seeds) && |table| == 180
  {
  }

  lemma KeysAreDistinct(b: Block, seeds: Seeds)
    requires Structural(b, seeds)
    ensures |KeySet(b.cells, |b.cells|)| == 180
  {
    hide CellExact, OrdinalsExact;
    var keys := seq(180, i requires 0 <= i < 180 => b.cells[i].key);
    forall x | x in KeySet(b.cells, |b.cells|) ensures x in keys {
      var i :| 0 <= i < 180 && b.cells[i].key == x;
      assert keys[i] == x;
    }
    ListedSize(keys, KeySet(b.cells, |b.cells|));
  }

  /** Every ordinal belongs to some cell. */
  lemma OrdinalsHit(b: Block, seeds: Seeds, o: nat) returns (i: nat)
    requires Structural(b, seeds) && o < 180
    ensures i < 180 && b.cells[i].ordinal == o
  {
    hide CellExact, DistinctKeys;
    var p: seq<nat> := seq(180, i requires 0 <= i < 180 => b.cells[i].ordinal);
    assert IsPermutation(p, 180);
    PermutationHits(p, 180, o);
    i :| 0 <= i < 180 && p[i] == o;
  }

  lemma StructuralIsLocal(b: Block, seeds: Seeds)
    requires Structural(b, seeds)
    ensures LocalOk(b)
  {
    KeysAreDistinct(b, seeds);
    OrdinalsAreDistinct(b, seeds);
    forall i | 0 <= i < 180 ensures NodeShape(b.cells[i]) {
      assert CellExact(b, seeds, b.cells[i]);
    }
  }

  lemma OrdinalsAreDistinct(b: Block, seeds: Seeds)
    requires Structural(b, seeds)
    ensures |OrdinalSet(b.cells, |b.cells|)| == 180
    ensures forall o: nat :: o < 180 ==> o in OrdinalSet(b.cells, |b.cells|)
  {
    hide CellExact, DistinctKeys;
    var p: seq<nat> := seq(180, i requires 0 <= i < 180 => b.cells[i].ordinal);
    forall x | x in OrdinalSet(b.cells, |b.cells|) ensures x in p {
      var i :| 0 <= i < 180 && b.cells[i].ordinal == x;
      assert p[i] == x;
    }
    ListedSize(p, OrdinalSet(b.cells, |b.cells|));
    forall o: nat | o < 180 ensures o in OrdinalSet(b.cells, |b.cells|) {
      var i := OrdinalsHit(b, seeds, o);
    }
  }

  lemma StructuralIsFactorial(b: Block, seeds: Seeds)
    requires Structural(b, seeds)
    ensures Factorial(b.cells, KeySet(b.cells, |b.cells|))
  {
    KeysAreDistinct(b, seeds);
    forall k: nat | k < 180 ensures KeyAt(k) in KeySet(b.cells, |b.cells|) {
      var i := KeysHit(b, seeds, k);
    }
  }

  /** Every registered tuple belongs to some cell. */
  lemma KeysHit(b: Block, seeds: Seeds, k: nat) returns (i: nat)
    requires Structural(b, seeds) && k < 180
    ensures i < 180 && b.cells[i].key == KeyAt(k)
  {
    assert forall i :: 0 <= i < 180 ==> RegisteredKey(b.cells[i].key) by {
      forall i | 0 <= i < 180 ensures RegisteredKey(b.cells[i].key) {
        assert CellExact(b, seeds, b.cells[i]);
      }
    }
    hide KeyAt, KeyIndex, RegisteredKey, CellExact, OrdinalsExact;
    var p: seq<nat> := seq(180, i requires 0 <= i < 180 && RegisteredKey(b.cells[i].key) => KeyIndex(b.cells[i].key));
    forall i | 0 <= i < 180 ensures p[i] < 180 && KeyAt(p[i]) == b.cells[i].key {
      KeyRoundTrip(b.cells[i].key);
    }
    assert IsPermutation(p, 180);
    PermutationHits(p, 180, k);
    i :| 0 <= i < 180 && p[i] == k;
  }

  lemma StructuralFollows(b: Block, seeds: Seeds, table: seq<Option<Cell>>)
    requires Structural(b, seeds) && Indexed(table, b.cells, |b.cells|)
    ensures PlotsFollow(b, table)
  {
    forall o | 0 <= o < 180 ensures table[o].Some? && table[o].value.key.hardware == PlotOf(b, o) {
      var i := OrdinalsHit(b, seeds, o);
      assert CellExact(b, seeds, b.cells[i]);
    }
  }

  /** Two cells at different ordinals differ in their tuples. */
  lemma TableDistinct(b: Block, seeds: Seeds, table: seq<Option<Cell>>, o: nat, q: nat)
    requires Structural(b, seeds) && Indexed(table, b.cells, |b.cells|)
    requires o < 180 && q < 180 && o != q
    ensures table[o].Some? && table[q].Some? && table[o].value.key != table[q].value.key
  {
    hide CellExact;
    var i := OrdinalsHit(b, seeds, o);
    var j := OrdinalsHit(b, seeds, q);
    assert i < j || j < i;
  }

  lemma PlotComposition(b: Block, seeds: Seeds, table: seq<Option<Cell>>, begin: nat)
    requires Structural(b, seeds) && Indexed(table, b.cells, |b.cells|) && (begin == 0 || begin == 90)
    ensures |WithinSet(table, begin, begin + 90)| == 90
  {
    StructuralFollows(b, seeds, table);
    assert |table| == 180;
    hide Indexed, Structural;
    var within := seq(90, k requires 0 <= k < 90 && table[begin + k].Some? => table[begin + k].value.key.within);
    forall i, j | 0 <= i < j < 90 ensures within[i] != within[j] {
      TableDistinct(b, seeds, table, begin + i, begin + j);
    }
    forall x | x in WithinSet(table, begin, begin + 90) ensures x in within {
      var o :| begin <= o < begin + 90 && table[o].Some? && table[o].value.key.within == x;
      assert within[o - begin] == x;
    }
    ListedSize(within, WithinSet(table, begin, begin + 90));
  }

  // ---------------------------------------------------------------- accepted plans are the generated ones

  /** The block holds the randomization's cells, in any order of listing. */
  ghost predicate Arises(b: Block, seeds: Seeds, o: Orders) {
    && OrdersOk(o) && SeedsOk(seeds)
    && b.first == PlotState(o, 0) && b.second == PlotState(o, 90)
    && |b.cells| == 180 && OrdinalsExact(b.cells, 180)
    && forall i :: 0 <= i < 180 ==> b.cells[i] == PlannedCell(seeds, o, b.cells[i].ordinal)
  }

  lemma PlotStates(o: Orders, k: nat)
    requires OrdersOk(o) && k < 180
    ensures PlotState(o, k) == if k < 90 then PlotState(o, 0) else PlotState(o, 90)
    ensures PlotState(o, 0) != PlotState(o, 90)
    ensures PlotState(o, k) == H0 || PlotState(o, k) == H1
  {
  }

  lemma PlannedKey(seeds: Seeds, o: Orders, k: nat)
    requires OrdersOk(o) && SeedsComplete(seeds) && k < 180
    ensures var c := PlannedCell(seeds, o, k);
            && c.ordinal == k && c.key == Key(PlotState(o, k), WithinAt(Selected(o, k)))
            && RegisteredKey(c.key) && c == GenCell(seeds, c.key.hardware, c.key.within, k)
  {
    WithinIndexAt(Selected(o, k));
    PlotStates(o, k);
    hide WithinAt, IsPermutation;
  }

  /** The randomization never repeats a tuple. */
  lemma PlannedDistinct(seeds: Seeds, o: Orders, j: nat, k: nat)
    requires OrdersOk(o) && SeedsComplete(seeds) && j < k < 180
    ensures PlannedCell(seeds, o, j).key != PlannedCell(seeds, o, k).key
  {
    PlannedKey(seeds, o, j);
    PlannedKey(seeds, o, k);
    PlotStates(o, j);
    PlotStates(o, k);
    WithinIndexAt(Selected(o, j));
    WithinIndexAt(Selected(o, k));
    hide WithinAt, PlannedCell, WithinIndex, GenCell, RegisteredKey;
    if PlotState(o, j) == PlotState(o, k) {
      assert Selected(o, j) != Selected(o, k);
    }
  }

  /** Whatever arises from a randomization is accepted; generated plans in particular. */
  lemma ArisingIsStructural(b: Block, seeds: Seeds, o: Orders)
    requires Arises(b, seeds, o)
    ensures Structural(b, seeds)
  {
    PlotStates(o, 0);
    PlotStates(o, 90);
    forall i | 0 <= i < 180 ensures CellExact(b, seeds, b.cells[i]) {
      PlannedKey(seeds, o, b.cells[i].ordinal);
      PlotStates(o, b.cells[i].ordinal);
    }
    hide CellExact, PlannedCell, OrdersOk;
    forall i, j | 0 <= i < j < 180 ensures b.cells[i].key != b.cells[j].key {
      var p, q := b.cells[i].ordinal, b.cells[j].ordinal;
      if p < q {
        PlannedDistinct(seeds, o, p, q);
      } else {
        PlannedDistinct(seeds, o, q, p);
      }
    }
  }

  ghost predicate HasOrdinal(b: Block, o: nat) {
    exists i :: 0 <= i < |b.cells| && b.cells[i].ordinal == o
  }

  ghost function PositionOf(b: Block, o: nat): (i: nat)
    requires HasOrdinal(b, o)
    ensures i < |b.cells| && b.cells[i].ordinal == o
  {
    var i :| 0 <= i < |b.cells| && b.cells[i].ordinal == o;
    i
  }

  /** Every ordinal has a cell and every cell a number. */
  ghost predicate Listable(b: Block) {
    && (forall o: nat :: o < 180 ==> HasOrdinal(b, o))
    && (forall i :: 0 <= i < |b.cells| ==> RegisteredKey(b.cells[i].key))
  }

  /** The tuple number of the cell at an ordinal. */
  ghost function NumberAt(b: Block, o: nat): (n: nat)
    requires Listable(b) && o < 180
  {
    WithinIndex(b.cells[PositionOf(b, o)].key.within)
  }

  /** The tuple numbers of the 90 ordinals from `begin` on. */
  ghost function PlotNumbers(b: Block, begin: nat): (p: seq<nat>)
    requires Listable(b) && begin + 90 <= 180
    ensures |p| == 90
  {
    seq<nat>(90, k requires 0 <= k < 90 => NumberAt(b, begin + k))
  }

  lemma StructuralHits(b: Block, seeds: Seeds)
    requires Structural(b, seeds)
    ensures Listable(b)
  {
    forall o: nat | o < 180 ensures HasOrdinal(b, o) {
      var i := OrdinalsHit(b, seeds, o);
    }
    forall i | 0 <= i < |b.cells| ensures RegisteredKey(b.cells[i].key) {
      assert CellExact(b, seeds, b.cells[i]);
    }
  }

  /** The cells of one plot have different numbers. */
  lemma NumbersDiffer(b: Block, seeds: Seeds, o: nat, q: nat)
    requires Structural(b, seeds) && Listable(b) && o < q < 180 && PlotOf(b, o) == PlotOf(b, q)
    ensures NumberAt(b, o) != NumberAt(b, q)
  {
    hide WithinIndex, WithinAt, RegisteredKey, GenCell;
    var m, n := PositionOf(b, o), PositionOf(b, q);
    assert CellExact(b, seeds, b.cells[m]) && CellExact(b, seeds, b.cells[n]);
    hide CellExact;
    assert m < n || n < m;
    var v, w := b.cells[m].key.within, b.cells[n].key.within;
    assert v != w;
    NumberedTuple(b, o);
    NumberedTuple(b, q);
  }

  lemma NumberedTuple(b: Block, o: nat)
    requires Listable(b) && o < 180
    ensures NumberAt(b, o) < 90 && WithinAt(NumberAt(b, o)) == b.cells[PositionOf(b, o)].key.within
  {
    WithinRoundTrip(b.cells[PositionOf(b, o)].key.within);
  }

  lemma NumbersArePermutation(b: Block, seeds: Seeds, begin: nat)
    requires Structural(b, seeds) && (begin == 0 || begin == 90)
    requires Listable(b)
    ensures IsPermutation(PlotNumbers(b, begin), 90)
  {
    hide Structural, Listable, NumberAt;
    var p := PlotNumbers(b, begin);
    forall i, j | 0 <= i < j < 90 ensures p[i] != p[j] {
      NumbersDiffer(b, seeds, begin + i, begin + j);
    }
    forall i | 0 <= i < 90 ensures p[i] < 90 {
      NumberedTuple(b, begin + i);
    }
  }

  /** The randomization behind an accepted plan. */
  ghost function OrdersOf(b: Block): Orders
    requires Listable(b)
  {
    var first, second := PlotNumbers(b, 0), PlotNumbers(b, 90);
    if b.first == H0 then Orders([0, 1], first, second) else Orders([1, 0], second, first)
  }

  lemma OrdersOfOk(b: Block, seeds: Seeds)
    requires Structural(b, seeds)
    requires Listable(b)
    ensures var o := OrdersOf(b);
            && OrdersOk(o) && b.first == PlotState(o, 0) && b.second == PlotState(o, 90)
            && forall k :: 0 <= k < 180 ==> PlotState(o, k) == PlotOf(b, k)
  {
    NumbersArePermutation(b, seeds, 0);
    NumbersArePermutation(b, seeds, 90);
    assert WholePlotsOk(b);
    hide Structural, PlotNumbers, Listable, RegisteredKey;
    assert IsPermutation([0, 1], 2) && IsPermutation([1, 0], 2);
  }

  lemma OrdersOfSelect(b: Block, seeds: Seeds, i: nat)
    requires Structural(b, seeds) && i < 180
    requires Listable(b)
    requires OrdersOk(OrdersOf(b)) && PlotState(OrdersOf(b), b.cells[i].ordinal) == PlotOf(b, b.cells[i].ordinal)
    ensures Selected(OrdersOf(b), b.cells[i].ordinal) == WithinIndex(b.cells[i].key.within)
  {
    hide CellExact, WithinIndex, RegisteredKey, IsPermutation;
    var k := b.cells[i].ordinal;
    var m := PositionOf(b, k);
    assert m == i by {
      assert m < i || i < m || m == i;
    }
    hide PositionOf;
  }

  /** Every accepted plan arises from some randomization. */
  lemma StructuralArises(b: Block, seeds: Seeds) returns (o: Orders)
    requires Structural(b, seeds)
    ensures Arises(b, seeds, o)
  {
    StructuralHits(b, seeds);
    o := OrdersOf(b);
    OrdersOfOk(b, seeds);
    forall i | 0 <= i < 180 ensures b.cells[i] == PlannedCell(seeds, o, b.cells[i].ordinal) {
      OrdersOfSelect(b, seeds, i);
      assert CellExact(b, seeds, b.cells[i]);
      hide Listable, OrdersOf, WithinIndex, RegisteredKey, GenCell, WithinAt, OrdersOk;
      PlannedKey(seeds, o, b.cells[i].ordinal);
      WithinRoundTrip(b.cells[i].key.within);
    }
  }

  /** The structural checks accept exactly the plans that arise from randomization. */
  lemma AcceptedIffRandomized(b: Block, seeds: Seeds)
    ensures Structural(b, seeds) <==> exists o :: Arises(b, seeds, o)
  {
    if Structural(b, seeds) {
      var o := StructuralArises(b, seeds);
    }
    if o :| Arises(b, seeds, o) {
      ArisingIsStructural(b, seeds, o);
    }
  }

  /** Generation followed by validation always succeeds. */
  method GenerateAndValidate(seeds: Seeds, o: Orders) returns (r: Result<Block, seq<Rule>>)
    requires OrdersOk(o)
    ensures r.Ok? <==> SeedsOk(seeds)
    ensures r.Ok? ==> Arises(r.value, seeds, o) && forall k :: 0 <= k < 180 ==> r.value.cells[k].ordinal == k
  {
    var generated := GenerateBlockPlan(seeds, o);
    if generated.Err? {
      return Err(generated.error);
    }
    var b := generated.value;
    forall k | 0 <= k < 180 ensures b.cells[k].ordinal == k {
      PlannedKey(seeds, o, k);
    }
    hide PlannedCell, OrdersOk;
    assert Arises(b, seeds, o);
    ArisingIsStructural(b, seeds, o);
    var errors := ValidateBlockPlan(b, seeds);
    return if errors == [] then Ok(b) else Err(errors);
  }
}
