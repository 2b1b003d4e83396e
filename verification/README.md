# Verified models of the CPU-prefetch study software

This project models the self-contained algorithms and protocols of a benchmark study of
single-producer single-consumer queues under software prefetching, and proves what each of them is
relied on for. One module per component; a module that changes state step by step in the program is
imperative here too (classes, loops, arrays), and is tied to functions whose laws are proved as
lemmas.

| modules | component | main results |
|---|---|---|
| `Utf`, `JsonValue`, `JsonPrinter`, `JsonGrammar`, `JsonParser`, `JsonSyntax`, `JsonDerivation`, `JsonRoundTrip`, `JsonShortest` | canonical JSON (RFC 8785 sections 3.2.2.2, 3.2.3 and 3.2.4; RFC 8259 sections 2 to 7; RFC 3629 section 3) | `JsonDerivation.ParsesIffDerived`, `JsonRoundTrip.ParseInvertsCanonical`, `JsonRoundTrip.CanonicalInjective`, `JsonShortest.CanonicalIsShortest`, `JsonValue.NamesAscend` |
| `Rational`, `Quantile` | exact 64-bit arithmetic and inverse-ECDF quantiles | `Rational.Compare`, `Rational.ProductExactIff`, `Quantile.InverseEcdfIs`, `Quantile.RunLengthQuantile` |
| `RingTrace`, `RingDistance` | demand traces and the prefetch distance | `RingTrace.TraceLaws`, `RingTrace.AcceptedIff`, `RingDistance.EvaluateContext` |
| `Moments`, `Bootstrap`, `MaxT` | means and deviations, rejection sampling, the block bootstrap, max-T intervals | `Bootstrap.BoundedDrawUnbiased`, `Bootstrap.WholeBootstrapIsFresh`, `MaxT.Run`, `MaxT.ResultUnique` |
| `Philox`, `Permutation`, `KnownAnswers`, `Schedule` | random stream, shuffles, arrival schedules | `Philox.RoundsBijective`, `Philox.ZeroKeyDraws`, `Permutation.ShuffleBijective`, `KnownAnswers.EventOrder`, `Schedule.ExactSchedule`, `Schedule.DeltaIsAbsolute` |
| `BlockPlan`, `BlockValidation`, `Pool`, `Replacement`, `ReplacementEvidence` | randomized blocks, their validator, complete-block replacement | `BlockValidation.AcceptedIffRandomized`, `Replacement.RunsKeepPool`, `ReplacementEvidence.AuthorizedIff` |
| `Authority`, `Ledger`, `LedgerEvidence`, `LedgerLinks` | authority policy, role namespaces, the sealing and access ledger | `Ledger.History`, `Ledger.GrantedIffOpened`, `LedgerEvidence.ValidationAccess`, `LedgerLinks.UnsealLinksSelectionIff` |
| `Lifecycle`, `Platform` | the run lifecycle, apply with rollback | `Lifecycle.JournalShapes`, `Lifecycle.ShapesAreReached`, `Platform.ApplyRequestedState` |
| `QueueSpec`, `Circular`, `RingQueue`, `LinkedQueue`, `LinkedProgress` | the two lock-free queues, all interleavings | `RingQueue.FirstInFirstOut`, `RingQueue.EnqueueCompletes`, `LinkedQueue.FirstInFirstOut`, `LinkedProgress.EnqueueCompletes` |

`Prelude`, `Arith` and `Sorting` hold shared vocabulary. `dafny verify dfyconfig.toml` checks
everything.

## Findings

What the proofs brought out. The first five are laws that hold only under a condition; each has a
concrete witness and the exact condition.

- The product of two exact rationals is exact and overflows only when it must, on reduced inputs.
  On unreduced inputs it can refuse a value that fits: (2^63/2^63)·(3/5)
  (`Rational.UnreducedProductMayOverflow`; condition in `Rational.ProductExactIff`).
- Complete-block replacement looks the named block up by identity only. The number of active blocks
  per role is kept exactly when the plan that the request carries has the role of the pool's block
  with that identity (`Replacement.RoleCountsKeptIff`, witness `Replacement.ForgedRole`).
- A selection freeze is meant to consume exactly the training artifacts it names
  (docs/ORCHESTRATION.md). The checks compare counts and look each name up, so naming one artifact
  twice lets another through unnamed. The law holds exactly when no artifact is named more often
  than it is an input (`Ledger.SelectionExactIff`, witness `Ledger.UnnamedInputIsAccepted`). The record
  schema asks for unique training references (freeze-record.schema.json:60-64), which would suffice
  (`Ledger.DistinctSelectionIsExact`); the loader does not enforce it (src/protocol/load.cpp:1305-1308).
- A validation unseal is meant to link the earlier selection freeze, as its error text says. The check
  accepts a link to any earlier record. In an error-free ledger there is one selection freeze before
  the unseal, and the unseal links it exactly when its reference has that record's identity
  (`LedgerLinks.UnsealLinksSelectionIff`, witness `LedgerLinks.UnsealLinksAnotherRecord`).
- Apply changes a control as soon as an observation of it exists, restore needs the observation to
  carry a value: a control can be applied that can never be restored. When no restore call fails, a
  restoration is complete exactly when every applied control's observation carries a value
  (`Platform.RestorePlatformState`, witness `Platform.UnrestorableControl`).
- An enqueue on the linked queue whose boundary capture fails has already taken its node from the
  recycler and never gives it back: every such failure lowers the capacity by one for good
  (`LinkedQueue.AbortedRefines`, `LinkedQueue.FirstInFirstOut`). On the ring a failed capture costs
  nothing (`RingQueue.StepRefines`).
- In the demand trace the separate capacity test on issue gaps is redundant: it never fires unless
  the demand test fires too (`RingTrace.IssueTestNeverFiresAlone`).
- The schedule validator takes the horizon as a length after the origin, the lifecycle's validator
  as an absolute end. They agree under exactly that reading (`Schedule.ValidatorsAgree`).

## Model

| member | source | states |
|---|---|---|
| `Utf.AppendUtf8` | src/protocol/json.cpp:21-43 | appends the encoding of exactly the Unicode scalar values; refuses surrogates and anything above U+10FFFF without touching the output |
| `Utf.EncodeIs` | src/protocol/json.cpp:21-43 | exactly the scalar values have an encoding; it is the form of one to four bytes for its range, a marked lead byte and six payload bits in each further byte |
| `Utf.DecodeUtf8` | src/protocol/json.cpp:45-92 | the decoding loop yields the scalar values of the text, or refuses it |
| `Utf.DecodeInvertsEncode` | src/protocol/json.cpp:21-92 | decoding at an encoded scalar value returns that value and its length |
| `Utf.EncodeInvertsDecode` | src/protocol/json.cpp:21-92 | whatever decodes is the one shortest encoding of the decoded value, so overlong forms are refused |
| `Utf.WellFormedIsEncoded` | src/protocol/json.cpp:45-92 | a byte string is accepted exactly when it is the encoding of some sequence of scalar values |
| `Utf.ComputeUtf16Key` | src/protocol/json.cpp:457-473 | the key loop computes the UTF-16 code units of the decoded text |
| `Utf.FromUtf16InvertsUtf16` | src/protocol/json.cpp:241-277 | pairing surrogates the way the parser does inverts splitting into UTF-16 units, for every scalar sequence |
| `Utf.Utf16KeyInjective` | src/protocol/json.cpp:457-473 | two well-formed texts with the same sort key are equal |
| `Utf.LexIs` | src/protocol/json.cpp:676-678 | one key is at or before another exactly when they are equal or, at the first place where they differ, it ends or has the smaller unit |
| `JsonValue.SortedOrderIsUnique` | src/protocol/json.cpp:661-683 | sorting any listing of an object's names by key gives the same order: the canonical text depends only on the object as a map |
| `JsonValue.NamesAscend` | src/protocol/json.cpp:661-683 | of any two names the earlier one's UTF-16 units end first or have the smaller unit at the first place where the two differ |
| `JsonValue.SurrogatesComeFirst` | tests/protocol_model_test.cpp:300-307 | the published object with the names U+E000 and U+1F600 prints the surrogate pair first, byte for byte |
| `JsonValue.CanonicalDefined` | src/protocol/json.cpp:614-696 | a value has a canonical text exactly when all its strings and names are well-formed UTF-8 |
| `JsonValue.CanonicalOfNormalized` | src/protocol/json.cpp:614-640 | the canonical text ignores integer kind and lexeme |
| `JsonPrinter.AppendString` | src/protocol/json.cpp:475-533 | appends the quoted, escaped text for exactly the well-formed strings |
| `JsonPrinter.AppendNext` | src/protocol/json.cpp:483-530 | each turn of the string loop consumes one whole scalar value and appends its escaped form |
| `JsonPrinter.AppendCanonical` | src/protocol/json.cpp:614-696 | the recursive printer appends the canonical text, or fails exactly when there is none |
| `JsonPrinter.AppendItems` | src/protocol/json.cpp:647-660 | array items in order, separated by commas |
| `JsonPrinter.AppendMembers` | src/protocol/json.cpp:661-696 | object members in the order of the sorted names (`JsonValue.NamesAscend` says which), each name with its value |
| `JsonPrinter.CollectNames` | src/protocol/json.cpp:667-678 | lists every name once, or fails exactly on an ill-formed name |
| `JsonPrinter.Canonicalize` | src/protocol/json.cpp:720-727 | the whole printer returns the canonical text exactly for values with well-formed texts; what that text is, `JsonValue.NamesAscend`, `JsonRoundTrip.ParseInvertsCanonical` and `JsonShortest.CanonicalIsShortest` say |
| `JsonGrammar.ParsedIsPrintable` | src/protocol/json.cpp:127-155 | every value the parser can produce has 64-bit integers, well-formed texts and hence a canonical text |
| `JsonParser.Parser.Document` | src/protocol/json.cpp:98-115 | accepts one value and surrounding space and nothing else |
| `JsonParser.Parser.Spaces` | src/protocol/json.cpp:117-125 | leaves the position at the first byte that is not JSON white space |
| `JsonParser.Parser.ValueAt` | src/protocol/json.cpp:127-155 | reads the value at the position and moves just past it |
| `JsonParser.Parser.LiteralAt` | src/protocol/json.cpp:157-164 | reads exactly the literal |
| `JsonParser.Parser.HexAt` | src/protocol/json.cpp:166-190 | reads four hexadecimal digits of either case |
| `JsonParser.Parser.UnicodeAt` | src/protocol/json.cpp:241-277 | reads one escape or a surrogate pair; lone surrogates are refused |
| `JsonParser.Parser.StringAt` | src/protocol/json.cpp:192-285 | reads a string up to its closing quote and checks the result is well-formed UTF-8 |
| `JsonParser.Parser.ArrayAt` | src/protocol/json.cpp:287-315 | reads the items of an array up to its closing bracket |
| `JsonParser.Parser.MemberAt` | src/protocol/json.cpp:326-343 | reads one name, colon and value |
| `JsonParser.Parser.ObjectAt` | src/protocol/json.cpp:317-366 | reads the members of an object and refuses a repeated name |
| `JsonParser.Parser.IntegerAt` | src/protocol/json.cpp:368-400 | reads an integer part without leading zeros |
| `JsonParser.Parser.NumberAt` | src/protocol/json.cpp:368-455 | reads an exact signed or unsigned 64-bit integer, or reports that it is out of range |
| `JsonParser.Parse` | src/protocol/json.cpp:716-718 | every accepted document can be canonicalized |
| `JsonSyntax.PiecesRead` | src/protocol/json.cpp:192-285 | any sequence of plain bytes, letter escapes, digit escapes of either case and surrogate pairs reads as the bytes it stands for |
| `JsonSyntax.TreeRead` | src/protocol/json.cpp:127-455 | the text of any derivation, with any white space the grammar allows, parses in place to what the derivation means |
| `JsonDerivation.TreeFound` | src/protocol/json.cpp:127-455 | whatever the parser accepts is the text of a derivation, and the answer is its meaning |
| `JsonDerivation.ParsesIffDerived` | src/protocol/json.cpp:94-455 | the parser answers a value exactly on the documents of the grammar that mean it: no leading zeros, no raw control characters, no trailing commas, no repeated names, 64-bit integers, well-formed UTF-8 |
| `JsonRoundTrip.NumberRoundTrip` | src/protocol/json.cpp:368-455 | every 64-bit integer's text reads back as that integer wherever it stands |
| `JsonRoundTrip.StringRoundTrip` | src/protocol/json.cpp:192-285 | every well-formed string's escaped text reads back as the string |
| `JsonRoundTrip.Utf16EscapesRoundTrip` | src/protocol/json.cpp:241-277 | writing any text as escaped UTF-16 units, surrogate pairs included, reads back as the text's UTF-8 |
| `JsonRoundTrip.ValueRoundTrip` | src/protocol/json.cpp:94-455 | the canonical text of any value, arrays and objects of any size included, reads back in place, consuming exactly that text |
| `JsonRoundTrip.ParseInvertsCanonical` | src/protocol/json.cpp:614-727 | parsing a canonical text succeeds, consumes all of it and yields the value up to integer kind and lexeme |
| `JsonRoundTrip.TreeOf` | src/protocol/json.cpp:475-696 | every canonical text is the text of a derivation that means the normalized value |
| `JsonRoundTrip.CanonicalInjective` | src/protocol/json.cpp:614-727 | two values have the same canonical text exactly when they are the same up to integer kind and lexeme |
| `JsonRoundTrip.CanonicalizationIdempotent` | src/protocol/json.cpp:716-727 | canonicalizing an accepted document gives a text that parses to the same value and is its own canonical text |
| `JsonShortest.EscapeForm` | src/protocol/json.cpp:475-533 | quote and backslash and the five letter escapes are two bytes, other control characters four lower-case hexadecimal digits, everything else itself |
| `JsonShortest.DigitsUnique` | src/protocol/json.cpp:368-400 | digits without a leading zero are the digits of the number they stand for |
| `JsonShortest.CanonicalIsShortest` | src/protocol/json.cpp:475-696 | no text that parses to a value is shorter than its canonical text: no space, no escape that is not needed |
| `Rational.ThroughputExact` | src/calibration/calibration.cpp:148-171 | the throughput is the exact product in lowest terms; overflow is reported only when that form does not fit |
| `Rational.ProductExact` | src/calibration/calibration.cpp:209-235 | whenever multiplication succeeds the result is the exact product in lowest terms |
| `Rational.ReducedProductExact` | src/calibration/calibration.cpp:209-235 | on reduced inputs overflow is reported exactly when the lowest-terms product does not fit |
| `Rational.ProductExactIff` | src/calibration/calibration.cpp:209-235 | on all inputs the answer is exact if and only if the cross-reduced products fit or the value itself does not |
| `Rational.UnreducedProductMayOverflow` | src/calibration/calibration.cpp:209-235 | a concrete unreduced input that is refused although its exact product is 3/5 |
| `Rational.LowestUnique` | src/calibration/calibration.cpp:136-146 | lowest terms are unique, so equal rationals have equal representations |
| `Rational.Compare` | src/calibration/calibration.cpp:173-207 | the continued-fraction loop terminates and returns the sign of the cross difference without forming a product |
| `Quantile.SplitRankIs` | src/analysis/analysis.cpp:1003-1021 | the split computation of the rank equals ceil(n p / q) or overflows exactly when the remainder's product does not fit |
| `Quantile.RankInRange` | src/analysis/analysis.cpp:1012-1031 | the rank is between 1 and n, so the internal-error branches are unreachable |
| `Quantile.InverseEcdfIs` | src/calibration/calibration.cpp:535-575 | the result is the least sample value whose empirical distribution reaches p/q |
| `Quantile.CheckedSum` | src/analysis/analysis.cpp:274-284 | the total of the run lengths, or none exactly when it does not fit |
| `Quantile.CheckRuns` | src/analysis/analysis.cpp:991-1002 | accepts exactly strictly increasing ticks with positive counts |
| `Quantile.RunLengthQuantile` | src/analysis/analysis.cpp:976-1031 | equals the inverse ECDF of the expanded sample, overflows on the same inputs, and never reports an internal error |
| `Quantile.Scan` | src/analysis/analysis.cpp:1022-1031 | the cumulative scan finds the run holding the ranked element of the expanded sample |
| `Quantile.ExpandOrdered` | src/analysis/analysis.cpp:991-1002 | the expansion of an accepted run list is sorted |
| `RingTrace.RingDemandTrace.Record` | src/calibration/calibration.cpp:478-518 | an accepted call extends its worker's series and no other; a rejected call changes nothing |
| `RingTrace.TraceLaws` | src/calibration/calibration.cpp:466-518 | over every sequence of calls: issue gaps sum to last minus first advance, their number is max(0, advances - 1), demands count advances plus stalls and stay within capacity |
| `RingTrace.AcceptedIff` | src/calibration/calibration.cpp:478-518 | a call is accepted exactly when it ends no earlier than it starts, has an outcome its worker can have, finds room and advances no earlier than any accepted advance before it |
| `RingTrace.IssueTestNeverFiresAlone` | src/calibration/calibration.cpp:495-499 | the issue-capacity test holds only when the demand test holds too |
| `RingDistance.CeilDivideIs` | src/calibration/calibration.cpp:30-44 | the checked division is the ceiling, and its overflow branch is dead |
| `RingDistance.DistanceIsGood` | src/calibration/calibration.cpp:808-848 | d1 is the fewest slots that fill a cache line; a resolved distance is the least multiple of it, from two lines up, that covers the demand, or the largest one within a quarter of capacity; its multiplication never overflows |
| `RingDistance.LimitsExist` | src/calibration/calibration.cpp:731-764 | complete series always have positive limits; a demand limit is the least number that 999 of 1000 parts of its series do not exceed, an issue limit the least for 1 of 1000 |
| `RingDistance.LimitIs` | src/calibration/calibration.cpp:535-575 | by counting: the quantile is the least number that the given parts in 1000 of the series do not exceed |
| `RingDistance.EvaluateState` | src/calibration/calibration.cpp:685-796 | running minima and maxima bound every valid run and are each attained by one; an incomplete series is reported exactly when there is one |
| `RingDistance.LimitsAreConservative` | src/calibration/calibration.cpp:808-815 | the demand and issue used are the largest demand limit and the smallest issue limit of any valid run of either worker in either state, each limit by counting its own series |
| `RingDistance.EvaluateContext` | src/calibration/calibration.cpp:685-848 | a resolved context has the least sufficient distance for the largest demand limit (999 of 1000 parts of a series) and the smallest issue limit (1 of 1000) of any valid run, or the largest multiple under the cap; a sufficient one covers every valid run of both workers; it fails exactly on a valid run with a series too short or holding a zero, is not evaluated exactly when a planned run is absent or fewer than 59 are valid, and resolves exactly when two lines fit in a quarter of capacity |
| `Bootstrap.BoundedDrawUnbiased` | src/analysis/analysis.cpp:464-484 | for every positive bound each residue has the same number of accepted 64-bit draws |
| `Bootstrap.BoundedDraw` | src/analysis/analysis.cpp:464-484 | returns the residue of the first accepted draw and the ordinal after it, or reports exhaustion |
| `Bootstrap.PickIs` | src/analysis/analysis.cpp:464-484 | the picked ordinal is the first whose draw reaches the threshold, and none is picked exactly when no ordinal before the last has one |
| `Bootstrap.PicksAreFresh` | src/analysis/analysis.cpp:464-484 | successive draws use strictly increasing ordinals and skip only rejected ones |
| `Bootstrap.WholeBootstrapIsFresh` | src/analysis/analysis.cpp:486-533 | across a whole bootstrap no draw ordinal is used twice, and in every column of every replicate the entries its own draws select balance around the estimate |
| `Bootstrap.EstimateIsMean` | src/analysis/analysis.cpp:511-528 | the deviations of the selected entries from the replicate's estimate sum to zero |
| `Bootstrap.BootstrapVectors` | src/analysis/analysis.cpp:486-533 | computes exactly those replicates, or reports the contract, width or exhaustion error in exactly its own case |
| `Moments.QuotientIsMean` | src/analysis/analysis.cpp:450-462 | the quotient of sum and count is where the deviations sum to zero |
| `Moments.MeanUnique` | src/analysis/analysis.cpp:450-462 | no other number is |
| `Moments.PairsAround` | src/analysis/analysis.cpp:535-550 | the squared differences of all ordered pairs, from the squared deviations around the mean |
| `Moments.RootIsDeviation` | src/analysis/analysis.cpp:535-550 | a root of the squared deviations over n - 1 has 2 n (n - 1) times its square equal to the squared differences of all ordered pairs |
| `MaxT.MeanVector` | src/analysis/analysis.cpp:450-462 | in every column the deviations from the computed mean sum to zero |
| `MaxT.StandardErrors` | src/analysis/analysis.cpp:535-550 | each column's nonnegative e with 2 B (B - 1) e^2 equal to the sum over all ordered pairs of replicates of their squared difference |
| `MaxT.ZeroErrorIsConstant` | src/analysis/analysis.cpp:535-550 | a standard error is zero exactly when the column is constant |
| `MaxT.Statistic` | src/analysis/analysis.cpp:600-618 | the maximum studentized deviation over columns with positive error, or a contradiction in a zero-error column |
| `MaxT.P95Covers` | src/analysis/analysis.cpp:552-564 | at least 95 of 100 parts of the statistics do not exceed the critical value |
| `MaxT.P95Least` | src/analysis/analysis.cpp:552-564 | the critical value is one of the statistics, and fewer than 95 of 100 parts of them stay at or below any smaller value |
| `MaxT.Coverage` | src/analysis/analysis.cpp:580-638 | with the critical value at least 95 percent of the replicates have all contrasts within reach at once, zero-error columns included; with any smaller nonnegative value fewer do |
| `MaxT.DegenerateIsContradicted` | src/analysis/analysis.cpp:605-611 | the zero-error failure happens exactly when a column is constant over the replicates and that constant does not balance the blocks |
| `MaxT.ClassificationIsExact` | src/analysis/analysis.cpp:566-578 | each conclusion is drawn if and only if it is true of every value inside the interval |
| `MaxT.CriticalUnique` | src/analysis/analysis.cpp:600-622 | so the replicates determine the critical value |
| `MaxT.Run` | src/analysis/analysis.cpp:580-638 | on success every estimate balances its contrast over the blocks, every standard error is its deviation over the replicates, every interval is critical value times standard error around its estimate, upper side only when one-sided, with the conclusion that interval allows; the critical value is the least with which 95 percent of the replicates have all contrasts within reach at once, and those lie inside all intervals; each of the five failures happens in exactly its own case |
| `MaxT.FromEstimates` | src/analysis/analysis.cpp:596-638 | the same for any replicates, however drawn |
| `MaxT.ResultUnique` | src/analysis/analysis.cpp:580-638 | blocks and replicates determine the whole result |
| `Philox.RoundBijective` | tools/generate_schedule.py:174-191 | one round has a two-sided inverse for every key |
| `Philox.RoundsBijective` | tools/generate_schedule.py:174-191 | so has any number of rounds with the key schedule |
| `Philox.Draw` | tools/generate_schedule.py:174-191 | the ten-round loop computes the selected half of the permuted block; what the block function yields, the vectors below say |
| `Philox.BlockDrawsInjective` | tools/generate_schedule.py:174-191 | for every key the two draws of a block determine the block |
| `Philox.ZeroVector` | tests/workload_model_test.cpp:94-96 | the published Philox4x32-10 block for a zero counter and key |
| `Philox.OnesVector` | tools/generate_schedule.py:174-191 | the published block for a counter and key of ones |
| `Philox.PiVector` | tools/generate_schedule.py:174-191 | the published block for the digits of pi |
| `Philox.ZeroKeyDraws` | tests/workload_model_test.cpp:94-96 | the first two draws of the zero key |
| `Philox.EventKeyDraws` | tests/workload_model_test.cpp:98-103 | the first seven draws of the test suite's event-order key |
| `Permutation.MakePermutation` | src/workload/deterministic.cpp:155-183 | the shuffle returns a permutation, the one its selections describe, or reports exhaustion |
| `Permutation.ShuffleBijective` | src/workload/deterministic.cpp:166-182 | selections below n, n-1, ..., 2 correspond one to one with the permutations, so the shuffle is unbiased |
| `KnownAnswers.EventOrder` | tests/workload_model_test.cpp:105-106 | that key's stream shuffles eight events into 7, 4, 0, 5, 2, 6, 1, 3 |
| `Permutation.PermutationHits` | src/workload/deterministic.cpp:155-183 | every number below n occurs |
| `Schedule.GenerateDeadlines` | tools/generate_schedule.py:275-346 | the first draw that cannot be placed decides: it ends the schedule at the horizon or is the one error reported; the deadlines are the successive arrivals up to there, and both validators accept them |
| `Schedule.PlaceOne` | tools/generate_schedule.py:293-338 | one turn of the generator places the draw, ends the schedule or reports the error of that draw |
| `Schedule.DecisionUnique` | tools/generate_schedule.py:275-346 | no two outcomes fit the same draws |
| `Schedule.SpecOkIff` | tools/generate_schedule.py:98-146 | a specification passes exactly when everything is named and in range and the rate is in lowest terms |
| `Schedule.UnitInside` | tools/generate_schedule.py:216-234 | a 64-bit draw stands for the middle of its cell when the unit interval is cut into 2^64 cells, strictly inside the interval |
| `Schedule.ExactCumulative` | tools/generate_schedule.py:216-234 | without rounding, cumulative time times the rate's numerator is the sum of the exponential variates times its denominator |
| `Schedule.ExactNeverStalls` | tools/generate_schedule.py:275-346 | without rounding no draw fails for its arithmetic: every 64-bit draw stands for a point strictly inside the unit interval |
| `Schedule.ExactSchedule` | tools/generate_schedule.py:216-346 | without rounding deadline k is the whole tick at or before the k-th arrival at numerator events in denominator ticks |
| `Schedule.ValidateSchedule` | src/protocol/semantic.cpp:64-129 | no error exactly for schedules whose decoded deadlines are nondecreasing and inside the horizon, under an accepted header |
| `Schedule.ValidatePrepared` | src/lifecycle/runtime.cpp:99-120 | no error exactly for nondecreasing deadlines inside the half-open interval |
| `Schedule.ValidatorsAgree` | src/lifecycle/runtime.cpp:99-120 | both validators accept the same inline schedules when the second takes the horizon as absolute end |
| `Schedule.GeneratedIsAccepted` | tools/generate_schedule.py:275-346 | deadlines in order inside the half-open horizon pass both validators |
| `Schedule.DeltaIsAbsolute` | src/protocol/semantic.cpp:64-129 | a delta-encoded schedule validates exactly when its prefix sums fit and validate as absolute deadlines |
| `Schedule.DeltaRoundTrip` | src/protocol/semantic.cpp:64-129 | every accepted absolute schedule has a delta encoding that validates and decodes back to it |
| `BlockPlan.WithinRoundTrip` | src/orchestration/block_planning.cpp:179-200 | numbering a registered within-plot tuple and looking the number up returns the tuple |
| `BlockPlan.WithinIndexAt` | src/orchestration/block_planning.cpp:179-200 | each of the 90 numbers names a registered tuple with that number, so the factor-index error is unreachable |
| `BlockPlan.KeyIndexAt` | src/orchestration/block_planning.cpp:321-347 | each of the 180 numbers names a registered factor tuple with that number |
| `BlockPlan.KeyRoundTrip` | src/orchestration/block_planning.cpp:321-347 | and every registered factor tuple has such a number |
| `BlockPlan.BaseTuples` | src/orchestration/block_planning.cpp:504-524 | the nested loops list the 90 within-plot tuples in numbering order |
| `BlockPlan.ExpectedStageACells` | src/orchestration/block_planning.cpp:321-347 | the nested loops list the 180 factor tuples in numbering order |
| `BlockPlan.ValidateSeedCatalog` | src/orchestration/block_planning.cpp:432-462 | silent exactly on 18 arrival, 6 node and 6 event identities that are opaque and never serve twice |
| `BlockPlan.GenerateBlockPlan` | src/orchestration/block_planning.cpp:494-551 | the cell at each ordinal is the one the plot order and that plot's permutation put there, with its context's seeds |
| `BlockPlan.PlannedCellIs` | src/orchestration/block_planning.cpp:494-551 | in plain terms, for both plots and all 90 places: ordinal, hardware state, the tuple by its number in that state's order, arrival seed of 18, event seed of 6, and a node seed for exactly the linked packages |
| `BlockValidation.ValidateBlock` | src/protocol/semantic.cpp:486-531 | the record-local checks accept exactly 180 distinct tuples, ordinals 0 to 179, both plots, node seeds for linked packages only |
| `BlockValidation.ScanCell` | src/orchestration/block_planning.cpp:622-661 | a cell passes exactly when its tuple and ordinal are new and in range and its seed references match its context |
| `BlockValidation.ScanCells` | src/orchestration/block_planning.cpp:620-661 | the scan is silent exactly on cells that all pass, and then the table lists them by ordinal |
| `BlockValidation.IsFactorial` | src/orchestration/block_planning.cpp:662-669 | the product test holds exactly when 180 cells cover all 180 registered tuples |
| `BlockValidation.CheckPlotOrder` | src/orchestration/block_planning.cpp:670-687 | silent exactly when every ordinal has a cell of the plot it belongs to |
| `BlockValidation.CheckComposition` | src/orchestration/block_planning.cpp:688-705 | silent exactly when each plot has 90 different tuples |
| `BlockValidation.ValidateBlockPlan` | src/orchestration/block_planning.cpp:586-707 | all checks together accept exactly the structural plans: each registered tuple once, ordinals 0 to 179, 90 cells per plot, exact seed references |
| `BlockValidation.FactorialIsRegistered` | src/orchestration/block_planning.cpp:662-669 | covering 180 registered tuples with 180 cells leaves room for no unregistered one |
| `BlockValidation.ArisingIsStructural` | src/orchestration/block_planning.cpp:494-551 | whatever a randomization generates passes every structural check, for all permutations |
| `BlockValidation.StructuralArises` | src/orchestration/block_planning.cpp:586-707 | every accepted plan comes from some whole-plot and within-plot permutations, recovered from it |
| `BlockValidation.AcceptedIffRandomized` | src/orchestration/block_planning.cpp:465-707 | the validator accepts exactly the plans that arise from randomization |
| `BlockValidation.GenerateAndValidate` | src/orchestration/block_planning.cpp:465-584 | generation followed by its own validation fails only on a seed catalog that is incomplete, repeated or not opaque |
| `Pool.ExactAffectedBlocks` | src/orchestration/access.cpp:377-398 | true exactly when the list names every active block of the role once and nothing else, and there is one |
| `Pool.IdInUnique` | src/orchestration/access.cpp:102-109 | with unique identities the lookup returns the block itself |
| `Authority.ValidateAuthorityPolicy` | src/orchestration/access.cpp:510-568 | silent exactly when each of the six roles is held once by an opaque authority and no authority holds two without known evidence naming the pair |
| `Authority.EveryRoleHeld` | src/orchestration/access.cpp:510-542 | under an accepted policy every role has an authority, the one its assignment names |
| `Authority.SharedAuthorityPermitted` | src/orchestration/access.cpp:543-566 | two roles held by one authority are held with known evidence for that pair |
| `Authority.ValidateRoleNamespaces` | src/orchestration/block_planning.cpp:371-416 | silent exactly when the three block roles have opaque namespaces under the common one, all different |
| `Ledger.FreezeErrors` | src/orchestration/access.cpp:655-694 | a protocol freeze may only seal, open training or archive, over exactly the right blocks; opening training needs a complete decision whose named artifacts are all among the inputs |
| `Ledger.SelectionErrors` | src/orchestration/access.cpp:695-758 | a selection freeze follows open training over exactly the training blocks; each training reference it names is a training artifact among its inputs, and there are as many names as training inputs |
| `Ledger.SelectionExactIff` | src/orchestration/access.cpp:730-757 | an accepted selection consumes exactly the training inputs it names if and only if it names none more often than it occurs among the inputs |
| `Ledger.DistinctSelectionIsExact` | src/orchestration/access.cpp:730-757 | distinct names suffice, and are necessary when the training inputs are distinct |
| `Ledger.UnnamedInputIsAccepted` | src/orchestration/access.cpp:730-757 | an error-free ledger with a complete policy, all namespaces and known inputs, over a block with any plan, whose selection names one training artifact twice and consumes another unnamed |
| `Ledger.UnsealErrors` | src/orchestration/access.cpp:759-815 | an unseal is silent exactly when its transition is allowed and its evidence is in order; `LedgerEvidence.UnsealIff` says what that is |
| `Ledger.EvaluationErrors` | src/orchestration/access.cpp:816-836 | an evaluation follows the unseal over exactly the validation blocks and links two earlier records |
| `Ledger.ReleaseErrors` | src/orchestration/access.cpp:837-852 | a release follows the evaluation over the whole active pool |
| `Ledger.AmendmentErrors` | src/orchestration/access.cpp:853-893 | an amendment keeps the state, supersedes one earlier record by identity and hash that no other amendment supersedes, and uses no outcomes |
| `Ledger.CommonErrors` | src/orchestration/access.cpp:591-642 | identity, hash, chronology, input resolution, authority and affected-block checks of every record |
| `Ledger.ValidateAccessLedger` | src/orchestration/access.cpp:570-903 | no error exactly when the policy, the namespaces and the block identities are in order and so is every record in its place; the final state is the one reached |
| `Ledger.OneStep` | src/orchestration/access.cpp:643-900 | an error-free transition starts at the reached state and moves exactly one state forward, of the one kind allowed there; other records leave the state |
| `Ledger.History` | src/orchestration/access.cpp:570-903 | in an error-free ledger the transitions are one for each state left, in order, whatever else is interleaved |
| `Ledger.NeverBack` | src/orchestration/access.cpp:570-903 | the state never goes back |
| `Ledger.Chronological` | src/orchestration/access.cpp:605-615 | timestamps never decrease between any two records |
| `Ledger.AmendmentChains` | src/orchestration/access.cpp:853-882 | record identities are unique and amendments form unbranched chains toward earlier records |
| `Ledger.OpeningNames` | src/orchestration/access.cpp:655-848 | the record that opens a domain names exactly the active blocks of that domain |
| `Ledger.OpenedIffReached` | src/orchestration/access.cpp:905-949 | a domain's state has been reached exactly when its opening record is in the ledger |
| `Ledger.GrantedIffOpened` | src/orchestration/access.cpp:905-949 | outcome access is granted exactly when the ledger is error-free, the actor holds the domain's analyst role and the opening record named the block, which is then active |
| `Ledger.SegregatedAccess` | src/orchestration/access.cpp:905-949 | one authority is granted both training outcomes and later ones only with evidence that permits it both analyst roles |
| `LedgerEvidence.EveryRecord` | src/orchestration/access.cpp:591-632 | every record of an error-free ledger is new and bound by its hash, every input is a known artifact or an earlier record, and its signer holds the role its kind needs, with that role's title |
| `LedgerEvidence.EveryAffected` | src/orchestration/access.cpp:633-642 | every block a record names is in the pool with a role its kind may touch |
| `LedgerEvidence.FreezeIff` | src/orchestration/access.cpp:655-694 | a freeze passes exactly when it seals or archives the whole active pool, or opens training over exactly the training blocks with a registered decision whose delta, bootstrap and different schemas are all inputs |
| `LedgerEvidence.SelectionIff` | src/orchestration/access.cpp:695-758 | a selection passes exactly with the registered rule, its checksum and contexts, over exactly the training blocks, naming training artifacts of the training role that are its inputs, as many as it has training inputs |
| `LedgerEvidence.UnsealIff` | src/orchestration/access.cpp:759-815 | an unseal passes exactly when some input is an artifact issued in the validation authority's role by the one assigned to it, its artifact is sealed in the namespace bound to validation, and it links an earlier record |
| `LedgerEvidence.EvaluationIff` | src/orchestration/access.cpp:816-836 | an evaluation passes exactly when it follows the unseal over exactly the validation blocks and links two earlier records and a known artifact |
| `LedgerEvidence.ReleaseIff` | src/orchestration/access.cpp:837-852 | a release passes exactly when it follows the evaluation over the whole active pool with a known evaluation and a known access audit |
| `LedgerEvidence.AmendmentIff` | src/orchestration/access.cpp:853-893 | an amendment passes exactly when it keeps the state, uses no outcomes, names an earlier record with its hash, and no earlier amendment supersedes it |
| `LedgerEvidence.TrainingAccess` | src/orchestration/access.cpp:905-949 | whoever is granted training outcomes is the assigned training analyst, and a registered decision signed by the assigned freeze authority opened them |
| `LedgerEvidence.ValidationAccess` | src/orchestration/access.cpp:905-949 | whoever is granted validation outcomes is the assigned confirmatory analyst; the block was named by an unseal after the selection, signed by the assigned custodian, approved by the assigned validation authority, with an artifact sealed in the validation namespace |
| `LedgerEvidence.ReleasedAccess` | src/orchestration/access.cpp:905-949 | whoever is granted H1 and H2 outcomes is the assigned confirmatory analyst; the block was named by a release with a known evaluation and audit, after an evaluation, after an unseal |
| `LedgerLinks.LinkNamesIff` | src/orchestration/access.cpp:810-836 | in an error-free ledger a link names a given earlier record exactly when it has that record's identity |
| `LedgerLinks.UnsealLinksSelectionIff` | src/orchestration/access.cpp:810-815 | one selection freeze comes before an unseal, and the unseal links it if and only if its reference has that record's identity |
| `LedgerLinks.UnsealLinksAnotherRecord` | src/orchestration/access.cpp:810-815 | an error-free ledger, over blocks with any plans, whose unseal links the sealing record instead of the selection |
| `Replacement.GeneratePlan` | src/orchestration/block_planning.cpp:465-584 | the generated plan carries its input's identity, lineage and randomization, or the first refusal |
| `Replacement.DecideReplacement` | src/orchestration/access.cpp:951-1096 | authorizes exactly the admissible requests with a fresh plan in a new order (`ReplacementEvidence.AuthorizedIff` says which); reports the study unresolved exactly when the budget is used up; a refusal names a check that fails |
| `Replacement.AuthorizedPlan` | src/orchestration/access.cpp:964-1081 | an authorized plan has new identity, ordinal and subspace, the named plan's role, and an unreplaced target |
| `Replacement.ReplacementKeepsPool` | src/orchestration/access.cpp:951-1096 | identities, ordinals and subspaces stay unique, no block is replaced twice, every replacement succeeds an earlier block |
| `Replacement.ActiveCountAfter` | src/orchestration/access.cpp:951-1096 | how an authorized replacement changes the number of active blocks of each role |
| `Replacement.RoleCountsKeptIff` | src/orchestration/access.cpp:956-984 | the counts are kept exactly when the named plan has the role of the pool's block |
| `Replacement.ForgedRole` | src/orchestration/access.cpp:956-963 | a concrete authorized request, over a pool with derived identities and accepted plans, that moves a block from one role to another |
| `Replacement.RunsKeepPool` | src/orchestration/access.cpp:951-1096 | over every run of authorized replacements of the pool's own plans all of this holds, the earlier pool is kept, and the budget is never exceeded |
| `Replacement.Origin` | src/orchestration/access.cpp:951-1096 | replacement chains are acyclic and descend to an original block of the same role |
| `Replacement.SortedIsPlanned` | src/orchestration/access.cpp:289-309 | sorting an accepted block by ordinal lists the cells of its randomization |
| `Replacement.SameOrderIff` | src/orchestration/access.cpp:289-309 | the order test compares exactly the randomizations behind two accepted blocks |
| `Replacement.ReplacementIsNew` | src/orchestration/access.cpp:1082-1096 | a replacement of an accepted block passes the structural checks and has a different randomization |
| `ReplacementEvidence.AuthorizedIff` | src/orchestration/access.cpp:951-1096 | a request is authorized exactly when its run is retained as invalid and incomplete for a planned tuple of the block, its failure is resolved by the authorization, the authorization sanctions both with the budget among outcome-free inputs, and the plan is the approved one, new in the pool and in another order |
| `Lifecycle.ValidateConsequences` | src/lifecycle/state_machine.cpp:81-160 | silent exactly when artifact statements are unique, well formed, carry failure evidence where due, claim no measurement before it happened and all of it on completion |
| `Lifecycle.RunStateMachine.Create` | src/lifecycle/state_machine.cpp:304-348 | a machine exists exactly for a separated context and a well-formed genesis, and starts planned with one record |
| `Lifecycle.RunStateMachine.DoTransition` | src/lifecycle/state_machine.cpp:350-383 | an accepted request moves phase, projected state, time and journal together; a rejected one changes nothing |
| `Lifecycle.RunStateMachine.RecordOutcome` | src/lifecycle/state_machine.cpp:385-411 | an outcome is recorded only on a completed or valid run and is never a failure; a rejected one changes nothing |
| `Lifecycle.RunStateMachine.RecordRecovery` | src/lifecycle/state_machine.cpp:413-444 | a recovery is recorded only after finalization and after everything before it; a rejected one changes nothing |
| `Lifecycle.RunsKeepInvariant` | src/lifecycle/state_machine.cpp:304-444 | over every run the journal is a consecutive legal path with nondecreasing times, outcomes are never failures or replacement triggers, and recoveries are disjoint and follow finalization |
| `Lifecycle.JournalBounded` | src/lifecycle/state_machine.cpp:206-245 | a journal has at most ten records |
| `Lifecycle.NormalPrefix` | src/lifecycle/state_machine.cpp:206-245 | a normal phase is reached only through all normal phases before it |
| `Lifecycle.JournalShapes` | src/lifecycle/state_machine.cpp:206-245 | the journal of every run is a prefix of the normal phases, or one followed by the failure that belongs there, alone or finalized invalid, or a completed run finalized invalid |
| `Lifecycle.ShapesAreReached` | src/lifecycle/state_machine.cpp:206-383 | every such shape is the journal of some run from an accepted genesis |
| `Lifecycle.ProjectedStates` | src/lifecycle/state_machine.cpp:30-61 | over every run: the protocol state of each phase, failure by failure, and an invalid end keeps the state before it |
| `Lifecycle.FailuresHaveEvidence` | src/lifecycle/state_machine.cpp:113-119 | over every run each failure, early or late, and each invalid end states present failure evidence |
| `Lifecycle.ValidFinalization` | src/lifecycle/state_machine.cpp:30-61 | a valid finalization has passed every normal phase, in order, and no failure phase, and projects completion |
| `Lifecycle.InvalidFinalization` | src/lifecycle/state_machine.cpp:30-61 | an invalid finalization keeps its predecessor's projected state and carries failure evidence |
| `Lifecycle.FinalizedForever` | src/lifecycle/state_machine.cpp:206-245 | after finalization phase, journal and projected state never change |
| `Lifecycle.EarlyFailuresFabricateNothing` | src/lifecycle/state_machine.cpp:120-138 | a failure before measurement states of every measurement artifact that it is absent, and nothing else of it |
| `Lifecycle.CompletedIsMeasured` | src/lifecycle/state_machine.cpp:139-151 | a completed run states every measurement artifact as present |
| `Platform.ObservationIs` | src/platform/platform.cpp:86-93 | a control's record is the first observation listed for that control, and there is none exactly when none is listed |
| `Platform.RestorePlatformState` | src/platform/platform.cpp:553-586 | attempts every applied control in reverse; complete exactly when every step restored, and then the hardware holds the recorded values; when no call fails, complete exactly when every record carries a value; targets without one are left alone |
| `Platform.ApplyRequestedState` | src/platform/platform.cpp:588-647 | a dry run changes nothing; an apply stops exactly at the first control without an observation or whose call fails; a complete restoration leaves exactly the applied prefix restored in reverse and, with accurate records, the hardware as before |
| `Platform.UnrestorableControl` | src/platform/platform.cpp:553-647 | a control whose observation carries no value is applied and stays, although no restore call fails |
| `Platform.RestoreFirstWins` | src/platform/platform.cpp:553-586 | after a rollback a target holds the value recorded for the first control driving it |
| `Platform.RollbackUndoesApply` | src/platform/platform.cpp:553-647 | with accurate records a complete rollback is the inverse of the apply |
| `Platform.CompleteRollback` | src/platform/platform.cpp:588-647 | the state and operation log after an apply and its complete rollback |
| `QueueSpec.Conservation` | include/cpu_prefetch/queue/common.hpp:41-69 | in a legal history what was accepted is what was delivered followed by what is queued, within the remaining capacity |
| `Circular.PushHolds` | include/cpu_prefetch/queue/ring_spsc.hpp:228-231 | storing at the cursor and advancing it appends an item |
| `Circular.PopHolds` | include/cpu_prefetch/queue/ring_spsc.hpp:228-231 | clearing at the cursor and advancing it removes the first item |
| `RingQueue.StepRefines` | include/cpu_prefetch/queue/ring_spsc.hpp:139-215 | every access of either thread, in any interleaving, is a step of a bounded FIFO queue: full and empty are reported only when true |
| `RingQueue.FirstInFirstOut` | include/cpu_prefetch/queue/ring_spsc.hpp:139-215 | over every interleaving events are delivered in order, none lost, duplicated or invented, at most capacity in flight |
| `RingQueue.Reports` | include/cpu_prefetch/queue/ring_spsc.hpp:139-215 | what each access reports and leaves behind, by the queue alone: refused exactly when full, nothing found exactly when empty, given up exactly when not captured, and otherwise its own event accepted or the oldest delivered |
| `RingQueue.EnqueueCompletes` | include/cpu_prefetch/queue/ring_spsc.hpp:139-164 | in any interleaving an enqueue with room ends with its own event accepted |
| `RingQueue.DequeueCompletes` | include/cpu_prefetch/queue/ring_spsc.hpp:187-215 | in any interleaving a dequeue with an event in flight delivers the oldest one |
| `RingQueue.PositionAtDistance` | include/cpu_prefetch/queue/ring_spsc.hpp:233-241 | the prefetch target is the slot that many places ahead modulo capacity |
| `LinkedQueue.ValidateNodeOrder` | src/queue/linked_spsc.cpp:19-33 | accepts exactly the permutations of the arena's nodes |
| `LinkedQueue.InitInvariant` | src/queue/linked_spsc.cpp:9-69 | the constructed queue owns every node once |
| `LinkedQueue.LoadRecyclerRefines` | include/cpu_prefetch/queue/linked_spsc.hpp:137-142 | full is reported only when everything of the remaining capacity is in flight; otherwise the oldest free node is seen |
| `LinkedQueue.TakeRefines` | include/cpu_prefetch/queue/linked_spsc.hpp:144-145 | taking a node moves it from the recycler to the producer's hand and nowhere else |
| `LinkedQueue.FillRefines` | include/cpu_prefetch/queue/linked_spsc.hpp:148-149 | filling a taken node disturbs nothing the consumer can reach |
| `LinkedQueue.LinkedRefines` | include/cpu_prefetch/queue/linked_spsc.hpp:153-155 | linking the node appends its event to the queue |
| `LinkedQueue.AbortedRefines` | include/cpu_prefetch/queue/linked_spsc.hpp:150-152 | a failed capture loses the taken node and one place of capacity |
| `LinkedQueue.LoadNextRefines` | include/cpu_prefetch/queue/linked_spsc.hpp:181-186 | empty is reported only when nothing is queued; otherwise the oldest queued node is seen |
| `LinkedQueue.CheckRefines` | include/cpu_prefetch/queue/linked_spsc.hpp:187-199 | the recycler always has room, so the recycler-invariant failure is unreachable |
| `LinkedQueue.MoveRefines` | include/cpu_prefetch/queue/linked_spsc.hpp:201-203 | advancing the head makes the successor the sentinel and the old one the consumer's |
| `LinkedQueue.ReturnRefines` | include/cpu_prefetch/queue/linked_spsc.hpp:204-206 | returning the old sentinel delivers the oldest event |
| `LinkedQueue.StepRefines` | include/cpu_prefetch/queue/linked_spsc.hpp:131-207 | every access of either thread is safe and a step of a bounded FIFO queue, in any interleaving |
| `LinkedQueue.RunIsSound` | include/cpu_prefetch/queue/linked_spsc.hpp:131-207 | after every run each node has one owner, the chain carries the queued events, and whatever access comes next finds what it dereferences |
| `LinkedQueue.FirstInFirstOut` | include/cpu_prefetch/queue/linked_spsc.hpp:131-207 | over every interleaving events are delivered in order, none lost, duplicated or invented; in flight, free, in hand and lost nodes add up to the capacity |
| `LinkedProgress.ProducerReports` | include/cpu_prefetch/queue/linked_spsc.hpp:137-157 | what each access of an enqueue reports and leaves behind, by the queue alone; it never moves the consumer |
| `LinkedProgress.ConsumerReports` | include/cpu_prefetch/queue/linked_spsc.hpp:174-207 | the same of a dequeue, which never reports a recycler failure |
| `LinkedProgress.EnqueueCompletes` | include/cpu_prefetch/queue/linked_spsc.hpp:137-157 | in any interleaving an enqueue with room ends with its own event accepted |
| `LinkedProgress.DequeueCompletes` | include/cpu_prefetch/queue/linked_spsc.hpp:174-207 | in any interleaving a dequeue with an event in flight delivers one more event, the oldest accepted |
| `LinkedQueue.AuditQuiescent` | src/queue/linked_spsc.cpp:161-226 | for any state: the links followed as far as they go, acyclic if and only if they end without repeating a node, first-in first-out shape, and single ownership if and only if chain and recycler partition the arena |
| `LinkedQueue.WalkUnique` | src/queue/linked_spsc.cpp:173-188 | the links determine the nodes the audit visits |
| `LinkedQueue.AuditOfSound` | src/queue/linked_spsc.cpp:161-226 | with both threads at rest the audit finds the true chain and recycler order, and single ownership exactly when no node was lost |

## Left out

- Binary64 numbers in JSON: the parser model stops with its own error when a fraction or exponent follows an integer part; printing and parsing of binary64 is not part of this model.
- `JsonRoundTrip.ParseInvertsCanonical`: integer numbers only, for the reason above; kinds and lexemes are compared after normalization, because the text `1` does not say which of the two integer kinds it came from.
- `JsonParser.Parser.ValueAt`: numbers with a fraction or an exponent are outside the model, as above.
- `JsonParser.Parser.NumberAt`: the same.
- `JsonDerivation.ParsesIffDerived`: the same; which of several errors a refused document reports is not part of it.
- Error paths and messages: errors are modelled by their rule, not by their text or document path.
- SHA-256, HMAC and record hashes: whether a hash matches is an input (`own.selfHash`, `wellFormed`, `catalogOk`).
- Binary64 rounding in the bootstrap and max-T: arithmetic is over `real`, and the square root is a parameter that is nonnegative and squares back to its argument.
- `MaxT.P95Covers`: does not model the wrap-around of 95 times the sample size in 64 bits, which would need more than 10^17 replicates.
- `Schedule.GenerateDeadlines`: the rounding of each decimal operation and the logarithm are arbitrary, and the generator's own progress test is what keeps time increasing; the digits of decimal logarithms are not part of this model.
- `Schedule.ExactSchedule`: without rounding, and for any function that is positive inside the unit interval in place of the negated logarithm.
- `RingDistance.EvaluateContext`: evidence references, governance identifiers and the exact set of contexts of the calibration plan are not checked in the model.
- `BlockValidation.ValidateBlockPlan`: structural checks and seed identities only; the block's namespace binding, versions, block identity and the plan hash are not part of this model.
- `BlockValidation.ValidateBlock`: the shape and lineage of a replacement are not among its checks; a lineage is one optional value here, and it is compared where the replacement is generated (`Replacement.GeneratePlan`).
- HMAC key derivation: the event-order key of `Philox.EventKeyDraws` is an input.
- `Ledger.ValidateAccessLedger`: the parsing of timestamps, whether the training decision's orders, families and counts are the registered ones, and the selection checksum are inputs; a reference resolves to some earlier record with that identity and hash, of whatever kind (`LedgerLinks` says when it is the one meant).
- `Replacement.DecideReplacement`: block identities come from an arbitrary derivation function, so that two different blocks get different identities is checked by the decision and not assumed.
- `RingQueue.StepRefines`: the atomic slots are sequentially consistent in the model; that acquire and release orderings suffice on weaker memory is not modelled.
- `LinkedQueue.StepRefines`: the same, and a thread's private cursor update is part of the step of the shared access next to it.
- `RingQueue.FirstInFirstOut`: over sequentially consistent slots, as above.
- `RingQueue.EnqueueCompletes`: a call that is scheduled completes; that a thread is scheduled is not claimed.
- `LinkedProgress.EnqueueCompletes`: the same.
- `LinkedQueue.FirstInFirstOut`: over sequentially consistent memory, as above.
- `Platform.ApplyRequestedState`: a failed apply is assumed to leave its own target unchanged; a failed restore may leave anything there.
- `Sorting`: the C++ library sort is an insertion sort here; callers use only that the result is ordered and a rearrangement.
- Recursion depth and memory: unbounded in the model.
- The worker start barrier and termination word, the storage codec, the reconciliation join, manifest and report emission, document loading, Linux inventory, file publication and the command-line tools: easy field-by-field members or operating-system work.
