# Sopremo core in Dafny

A model of six parts of the Sopremo layer of Stratosphere (a fork of Flink's
predecessor). Each part has properties proved about it:

- **MergeDistinctRule.fuse**: a fusion rule. It drops the explicit JSON null values of a
  conflict set, keeps one value per comparator class, and returns them as an array in
  comparator order.
- **The intra-source record-linkage oracle** from the disjunctive-partitioning test. It is a
  nested loop over the input records. A pair of records is expected in the output when
  - the right record comes after the left one,
  - at least one blocking key evaluates equal on both, and
  - the similarity is strictly above the threshold.

  The same test class holds the constructor that builds the key arrays and the grid of test
  parameters.
- **IntraSourceRecordLinkageTestBase**: the canonical ordered pair, the test plan with its
  nine-record fixture, the averaged similarity expression and the aggregating duplicate
  projection.
- **PathExpression**: a path of expression fragments with these operations:
  - a flattening constructor;
  - `add`, and the writable variant's checked `add`;
  - `evaluate`, a left fold over the fragments;
  - `getDepth`, `isPrefix` and `equals`;
  - the in-place `replace` of a run of fragments.
- **StreamArrayNode**: a read-only JSON array over an iterator. It comes in two views:
  - the forward-only `Iterating` view, with its cursor `currentIndex` / `currentNode`;
  - the `Resettable` view, which copies the iterator into a list.
- **ContractUtil**:
  - the nearest-registered-ancestor lookup of a stub class's contract class;
  - reading and writing a contract's inputs as one array whose length matches the kind of
    contract.

Files:

| file | module | contents |
|---|---|---|
| `wrappers.dfy` | `Wrappers` | `Option`, `Result`, `Outcome`; Java exceptions as `Error` values |
| `json.dfy` | `Json` | JSON values (`JNull` is Jackson's `NullNode`, `JMissing` its `MissingNode`), comparators as parameters |
| `expressions.dfy` | `Expressions` | the evaluation expressions the core builds, with `Eval` over uninterpreted metrics and built-ins |
| `merge_distinct_rule.dfy` | `MergeDistinctRule` | `Fuse` and its reference function `MergeDistinct` |
| `path_expression.dfy` | `PathExpressions` | class `PathExpression`; the `replace` loop as written and as corrected |
| `record_linkage_test_base.dfy` | `RecordLinkageTestBase` | classes `RecordLinkage` and `SopremoTestPlan`, the fixture, the expression builders |
| `disjunct_partitioning_test.dfy` | `DisjunctPartitioningIntraSourceTest` | the test class, the oracle loop, `getParameters` |
| `stream_array_node.dfy` | `StreamArrayNodes` | classes `NodeIterator`, `Iterating`, `Resettable`; `ValueOf` |
| `contract_util.dfy` | `ContractUtil` | the stub-class hierarchy, `GetContractClass`, class `Contract`, `GetInputs`, `SetInputs` |

The comparator (`JsonNodeComparator`) is a parameter. Lemmas that need it to be antisymmetric,
with a transitive less-than, say so with `IsComparator`, and those that need its 0 to mean equality use `ZeroIsEquality`.
The expression classes the core only builds are modelled by the semantics their names give:
- `InputSelection(i)` selects element i of an array;
- `ObjectAccess(f)` reads field f;
- `ArrayCreation` and `ObjectCreation` build arrays and objects.

Their source is not part of this model.

The similarity metrics (Levenshtein, Jaccard, `NumericDifference`) and the `AVERAGE`
built-in are uninterpreted functions, parameters of every evaluation (`Externals`). A
similarity score is a `real`.

## Model

| member | source | states |
|---|---|---|
| MergeDistinctRule.Fuse | sopremo/sopremo-cleansing/src/main/java/eu/stratosphere/sopremo/cleansing/fusion/MergeDistinctRule.java:24-32 | `fuse` returns the array of `MergeDistinct(values)`, built by inserting each non-null value into a comparator-ordered set. `weights` plays no part. |
| MergeDistinctRule.InsertMembers | sopremo/sopremo-cleansing/src/main/java/eu/stratosphere/sopremo/cleansing/fusion/MergeDistinctRule.java:26-29 | Adding to the ordered set keeps every element, adds nothing but the value, and grows the set by at most one. |
| MergeDistinctRule.InsertSorted | sopremo/sopremo-cleansing/src/main/java/eu/stratosphere/sopremo/cleansing/fusion/MergeDistinctRule.java:26-29 | Adding to a strictly ordered set keeps it strictly ordered. |
| MergeDistinctRule.InsertHasEquivalent | sopremo/sopremo-cleansing/src/main/java/eu/stratosphere/sopremo/cleansing/fusion/MergeDistinctRule.java:26-29 | After an add, the set holds an element that compares equal to the added value. |
| MergeDistinctRule.MergeDistinctElements | sopremo/sopremo-cleansing/src/main/java/eu/stratosphere/sopremo/cleansing/fusion/MergeDistinctRule.java:27-30 | Every output element comes from the input, and the explicit null node never appears in the output. |
| MergeDistinctRule.MergeDistinctLength | sopremo/sopremo-cleansing/src/main/java/eu/stratosphere/sopremo/cleansing/fusion/MergeDistinctRule.java:24-31 | The output is no longer than `values`. |
| MergeDistinctRule.MergeDistinctAllNull | sopremo/sopremo-cleansing/src/main/java/eu/stratosphere/sopremo/cleansing/fusion/MergeDistinctRule.java:25-31 | An empty or all-null `values` yields the empty array. |
| MergeDistinctRule.MergeDistinctSorted | sopremo/sopremo-cleansing/src/main/java/eu/stratosphere/sopremo/cleansing/fusion/MergeDistinctRule.java:26-30 | The output is strictly increasing under an antisymmetric comparator with a transitive less-than, so no two output elements compare equal. |
| MergeDistinctRule.MergeDistinctCovers | sopremo/sopremo-cleansing/src/main/java/eu/stratosphere/sopremo/cleansing/fusion/MergeDistinctRule.java:27-30 | Every non-null input value has a comparator-equal element in the output. |
| MergeDistinctRule.InsertGreatest | sopremo/sopremo-cleansing/src/main/java/eu/stratosphere/sopremo/cleansing/fusion/MergeDistinctRule.java:26-29 | Adding a value above every element appends it. |
| MergeDistinctRule.MergeDistinctOfSorted | sopremo/sopremo-cleansing/src/main/java/eu/stratosphere/sopremo/cleansing/fusion/MergeDistinctRule.java:26-30 | A strictly ordered, null-free sequence fuses to itself. |
| MergeDistinctRule.MergeDistinctIdempotent | sopremo/sopremo-cleansing/src/main/java/eu/stratosphere/sopremo/cleansing/fusion/MergeDistinctRule.java:26-30 | Fusing a fused output again returns it unchanged. |
| MergeDistinctRule.SortedUnique | sopremo/sopremo-cleansing/src/main/java/eu/stratosphere/sopremo/cleansing/fusion/MergeDistinctRule.java:26-30 | Two strictly ordered sequences with the same elements are equal, so the ordered set's contents decide the output array. |
| MergeDistinctRule.MergeDistinctOrderIndependent | sopremo/sopremo-cleansing/src/main/java/eu/stratosphere/sopremo/cleansing/fusion/MergeDistinctRule.java:26-30 | The output depends only on the set of non-null inputs. Any permutation or duplication of `values` gives the same array (for an antisymmetric comparator with a transitive less-than whose 0 is equality). |
| MergeDistinctRule.MergeDistinctExample | sopremo/sopremo-cleansing/src/main/java/eu/stratosphere/sopremo/cleansing/fusion/MergeDistinctRule.java:26-30 | Example: `[a, null, a, b]` and `[b, a]` fuse to the same two-element array in comparator order. |
| PathExpressions.WrapAsPathEvaluates | sopremo/sopremo-common/src/main/java/eu/stratosphere/sopremo/expressions/PathExpression.java:115-119 | What `wrapAsPath` returns (the expression's own fragments when it is a path, else a one-fragment path of it) evaluates exactly like the expression itself. |
| PathExpressions.PathExpression.constructor | sopremo/sopremo-common/src/main/java/eu/stratosphere/sopremo/expressions/PathExpression.java:22-32 | The fragments are the concatenation of the arguments, each path argument contributing its own fragments and any other argument itself. |
| PathExpressions.PathExpression.Writable | sopremo/sopremo-common/src/main/java/eu/stratosphere/sopremo/expressions/PathExpression.java:128-134 | A writable path is built by the same flattening from writable fragments, which include other writable paths (the class implements `WritableEvaluable`, line 121); a writable path argument contributes its fragments. |
| PathExpressions.FlattenPreservesEvaluation | sopremo/sopremo-common/src/main/java/eu/stratosphere/sopremo/expressions/PathExpression.java:26-32 | Flattening nested paths does not change what the path evaluates to. |
| PathExpressions.PathExpression.Add | sopremo/sopremo-common/src/main/java/eu/stratosphere/sopremo/expressions/PathExpression.java:137-141 | `add` (with `super.add` at lines 34-36) appends exactly one fragment at the end, without flattening. On a writable path, a fragment that is not writable gives IllegalArgumentException and leaves the fragments unchanged; a writable fragment, another writable path included, is appended. |
| PathExpressions.PathExpression.AsExpr | sopremo/sopremo-common/src/main/java/eu/stratosphere/sopremo/expressions/PathExpression.java:115-121 | A path used as an expression contributes its own fragments to `wrapAsPath`, and is writable exactly when it is a `PathExpression.Writable`. |
| PathExpressions.PathExpression.Equals | sopremo/sopremo-common/src/main/java/eu/stratosphere/sopremo/expressions/PathExpression.java:38-48 | Two paths are equal exactly when they are of the same class and have equal fragment lists. |
| PathExpressions.PathExpression.Evaluate | sopremo/sopremo-common/src/main/java/eu/stratosphere/sopremo/expressions/PathExpression.java:51-56 | `evaluate` is the left fold of fragment evaluation over the input node. An empty path returns the node itself. |
| Expressions.EvalPathAppend | sopremo/sopremo-common/src/main/java/eu/stratosphere/sopremo/expressions/PathExpression.java:51-56 | Evaluating a concatenated path is evaluating the second part on the result of the first. |
| PathExpressions.PathExpression.Depth | sopremo/sopremo-common/src/main/java/eu/stratosphere/sopremo/expressions/PathExpression.java:58-60 | The depth is the number of fragments. |
| PathExpressions.PathExpression.IsPrefix | sopremo/sopremo-common/src/main/java/eu/stratosphere/sopremo/expressions/PathExpression.java:78-82 | `isPrefix(p)` holds exactly when the fragments are p's fragments followed by some suffix. |
| PathExpressions.MatchesAt | sopremo/sopremo-common/src/main/java/eu/stratosphere/sopremo/expressions/PathExpression.java:98-100 | The inner loop finds a match exactly when the sought fragments occur at `startIndex`. It requires `startIndex + findSize <= size()`, which the loop bound guarantees. |
| PathExpressions.ReplaceFragments | sopremo/sopremo-common/src/main/java/eu/stratosphere/sopremo/expressions/PathExpression.java:95-106 | The labelled loop of `replace` for a non-empty sought path, with the bound `size` kept equal to `fragments.size() - findSize + 1` and the scan resumed right after each inserted replacement, returns the reference `ReplaceAll`: every occurrence replaced, scanning from the left. |
| PathExpressions.PathExpression.Replace | sopremo/sopremo-common/src/main/java/eu/stratosphere/sopremo/expressions/PathExpression.java:89-107 | The corrected `replace` (see Findings): the fragments become the reference `ReplaceAll` of the old ones, every occurrence replaced scanning from the left, resuming right after each inserted replacement, under the kept bound `size == fragments.size() - findSize + 1`; an empty sought path replaces nothing. The loop as written is `StepAsWritten` / `RunAsWritten`. |
| PathExpressions.ReplaceAllAbsent | sopremo/sopremo-common/src/main/java/eu/stratosphere/sopremo/expressions/PathExpression.java:95-106 | When the sought fragments do not occur, `replace` leaves the path unchanged. |
| PathExpressions.ReplaceAllPreservesEvaluation | sopremo/sopremo-common/src/main/java/eu/stratosphere/sopremo/expressions/PathExpression.java:89-107 | Replacing a path by one that evaluates the same on every node does not change what the whole path evaluates to. |
| PathExpressions.StepAsWritten | sopremo/sopremo-common/src/main/java/eu/stratosphere/sopremo/expressions/PathExpression.java:97-106 | One iteration of the loop as written: while it runs, every compared index `startIndex + index` is in range, the bound `size == fragments.size() - findSize + 1` is kept, and `startIndex` goes up by one. |
| PathExpressions.RunAsWritten | sopremo/sopremo-common/src/main/java/eu/stratosphere/sopremo/expressions/PathExpression.java:97-106 | Running the loop as written keeps the bound. |
| PathExpressions.AsWrittenAbsentUnchanged | sopremo/sopremo-common/src/main/java/eu/stratosphere/sopremo/expressions/PathExpression.java:95-106 | The loop as written leaves the fragments unchanged when the sought path does not occur. |
| PathExpressions.AsWrittenAgreesForSingleFragment | sopremo/sopremo-common/src/main/java/eu/stratosphere/sopremo/expressions/PathExpression.java:95-106 | For a one-fragment replacement and a non-empty sought path, the loop as written stops within `size() + 1` iterations with the reference result. |
| PathExpressions.AsWrittenDivergesOnSelfExtendingReplacement | sopremo/sopremo-common/src/main/java/eu/stratosphere/sopremo/expressions/PathExpression.java:95-106 | Finding: replacing `[x]` by `[x, x]` in `[x]` never stops, for any number of iterations. |
| PathExpressions.SelfExtendingRun | sopremo/sopremo-common/src/main/java/eu/stratosphere/sopremo/expressions/PathExpression.java:97-106 | The loop state of that run after k matches: k + 1 copies of `x`, still running. |
| PathExpressions.AsWrittenDivergesOnEmptySoughtPath | sopremo/sopremo-common/src/main/java/eu/stratosphere/sopremo/expressions/PathExpression.java:95-106 | Finding: with an empty sought path and a non-empty replacement, the loop never stops. |
| PathExpressions.AsWrittenSkipsAfterRemoval | sopremo/sopremo-common/src/main/java/eu/stratosphere/sopremo/expressions/PathExpression.java:97-106 | Finding: replacing `[x]` by the empty path in `[x, x]` leaves `[x]`, where replacing every occurrence gives `[]`. |
| PathExpressions.SingleFragmentRun | sopremo/sopremo-common/src/main/java/eu/stratosphere/sopremo/expressions/PathExpression.java:97-106 | For a single-fragment replacement, the loop as written stays on track towards the reference result until it stops. |
| PathExpressions.SingleFragmentStepKeepsTrack | sopremo/sopremo-common/src/main/java/eu/stratosphere/sopremo/expressions/PathExpression.java:97-106 | One iteration as written with a single-fragment replacement stays on track towards the reference result. |
| PathExpressions.MatchKeepsTrack | sopremo/sopremo-common/src/main/java/eu/stratosphere/sopremo/expressions/PathExpression.java:102-104 | Splicing in the replacement at a match and resuming after it stays on track towards the reference result, and keeps the bound. |
| PathExpressions.MismatchKeepsTrack | sopremo/sopremo-common/src/main/java/eu/stratosphere/sopremo/expressions/PathExpression.java:99-100 | Moving on after a mismatch stays on track towards the reference result. |
| PathExpressions.StoppedOnTrack | sopremo/sopremo-common/src/main/java/eu/stratosphere/sopremo/expressions/PathExpression.java:97 | When the loop stops on track, the fragments are the reference result. |
| PathExpressions.ReplaceAllUnfold | sopremo/sopremo-common/src/main/java/eu/stratosphere/sopremo/expressions/PathExpression.java:97-106 | The reference result at a position: the replacement plus the rest after a match, or the fragment plus the rest otherwise. |
| RecordLinkageTestBase.CreateOrderedPair | sopremo/sopremo-cleansing/src/test/java/eu/stratosphere/sopremo/cleansing/record_linkage/IntraSourceRecordLinkageTestBase.java:45-49 | The pair is `[o1, o2]` when o1 compares below o2 and `[o2, o1]` otherwise: always a permutation of the two inputs. |
| RecordLinkageTestBase.OrderedPairIsOrdered | sopremo/sopremo-cleansing/src/test/java/eu/stratosphere/sopremo/cleansing/record_linkage/IntraSourceRecordLinkageTestBase.java:45-49 | With an antisymmetric comparator, the first element never compares above the second. |
| RecordLinkageTestBase.OrderedPairIsSymmetric | sopremo/sopremo-cleansing/src/test/java/eu/stratosphere/sopremo/cleansing/record_linkage/IntraSourceRecordLinkageTestBase.java:45-49 | For inputs that do not compare equal, the argument order does not matter. |
| RecordLinkageTestBase.RecordLinkage.constructor | sopremo/sopremo-cleansing/src/test/java/eu/stratosphere/sopremo/cleansing/record_linkage/DisjunctPratitioningRecordLinkageIntraSourceTest.java:69-71 | The operator keeps its blocking keys, similarity and threshold, and starts with no identifier or duplicate projection. |
| RecordLinkageTestBase.RecordLinkage.SetIdProjection | sopremo/sopremo-cleansing/src/test/java/eu/stratosphere/sopremo/cleansing/record_linkage/IntraSourceRecordLinkageTestBase.java:62-63 | Sets the identifier projection of one input, leaving the duplicate projection alone. |
| RecordLinkageTestBase.RecordLinkage.SetDuplicateProjection | sopremo/sopremo-cleansing/src/test/java/eu/stratosphere/sopremo/cleansing/record_linkage/IntraSourceRecordLinkageTestBase.java:64-65 | Sets the duplicate projection, leaving the identifier projections alone. |
| RecordLinkageTestBase.SopremoTestPlan.constructor | sopremo/sopremo-cleansing/src/test/java/eu/stratosphere/sopremo/cleansing/record_linkage/IntraSourceRecordLinkageTestBase.java:61 | A new plan over the operator with an empty input. |
| RecordLinkageTestBase.SopremoTestPlan.AddInputs | sopremo/sopremo-cleansing/src/test/java/eu/stratosphere/sopremo/cleansing/record_linkage/IntraSourceRecordLinkageTestBase.java:67-76 | The chained adds append the records to the first input, in order. |
| RecordLinkageTestBase.CreateTestPlan | sopremo/sopremo-cleansing/src/test/java/eu/stratosphere/sopremo/cleansing/record_linkage/IntraSourceRecordLinkageTestBase.java:59-77 | The plan's input is the fixture. The identifier projection of input 0 becomes the field "id" exactly when `useId`. The duplicate projection is set exactly when a projection is given. |
| RecordLinkageTestBase.Fixture | sopremo/sopremo-cleansing/src/test/java/eu/stratosphere/sopremo/cleansing/record_linkage/IntraSourceRecordLinkageTestBase.java:67-75 | The fixture is nine records, each an object with exactly the fields "id", "first name", "last name" and "age". |
| RecordLinkageTestBase.FixtureIds | sopremo/sopremo-cleansing/src/test/java/eu/stratosphere/sopremo/cleansing/record_linkage/IntraSourceRecordLinkageTestBase.java:67-76 | The fixture has nine records, and record i has id i. |
| RecordLinkageTestBase.FixturePerfectDuplicates | sopremo/sopremo-cleansing/src/test/java/eu/stratosphere/sopremo/cleansing/record_linkage/IntraSourceRecordLinkageTestBase.java:68-73 | Records 0 and 5 differ, but only in their id. |
| RecordLinkageTestBase.CreatePathReadsField | sopremo/sopremo-cleansing/src/test/java/eu/stratosphere/sopremo/cleansing/record_linkage/IntraSourceRecordLinkageTestBase.java:86-90 | A created path reads the named field of the selected record. |
| RecordLinkageTestBase.AverageOfScores | sopremo/sopremo-cleansing/src/test/java/eu/stratosphere/sopremo/cleansing/record_linkage/IntraSourceRecordLinkageTestBase.java:91-92 | The similarity path applies AVERAGE to the array of the evaluated scores. |
| RecordLinkageTestBase.MeasureOfPair | sopremo/sopremo-cleansing/src/test/java/eu/stratosphere/sopremo/cleansing/record_linkage/IntraSourceRecordLinkageTestBase.java:86-89 | A simmetric function compares the same field of the first and second records. |
| RecordLinkageTestBase.AveragedSimilarityOfPair | sopremo/sopremo-cleansing/src/test/java/eu/stratosphere/sopremo/cleansing/record_linkage/IntraSourceRecordLinkageTestBase.java:86-93 | The similarity of a pair is the average of exactly three scores, in order: first-name Levenshtein, last-name Jaccard, then the age metric. |
| RecordLinkageTestBase.SimilarityAsWrittenOfPair | sopremo/sopremo-cleansing/src/test/java/eu/stratosphere/sopremo/cleansing/record_linkage/IntraSourceRecordLinkageTestBase.java:85-94 | `getSimilarityFunction` as written evaluates on a pair to AVERAGE of the first-name Levenshtein, the last-name Jaccard and the numeric difference of the first record's age with itself. |
| RecordLinkageTestBase.AgeDifferenceAsWrittenOfPair | sopremo/sopremo-cleansing/src/test/java/eu/stratosphere/sopremo/cleansing/record_linkage/IntraSourceRecordLinkageTestBase.java:90 | As written, the age metric compares the first record's age with itself. |
| RecordLinkageTestBase.AsWrittenSimilarityIgnoresSecondAge | sopremo/sopremo-cleansing/src/test/java/eu/stratosphere/sopremo/cleansing/record_linkage/IntraSourceRecordLinkageTestBase.java:86-93 | Finding: as written, two right-hand records with the same names get the same similarity, whatever their ages. |
| RecordLinkageTestBase.AgeDifferenceOfPair | sopremo/sopremo-cleansing/src/test/java/eu/stratosphere/sopremo/cleansing/record_linkage/IntraSourceRecordLinkageTestBase.java:90 | Corrected, the age metric compares the first record's age with the second's. |
| RecordLinkageTestBase.SimilarityComparesBothAges | sopremo/sopremo-cleansing/src/test/java/eu/stratosphere/sopremo/cleansing/record_linkage/IntraSourceRecordLinkageTestBase.java:86-93 | Corrected, the similarity averages first-name, last-name and age scores of the two records. |
| RecordLinkageTestBase.AggregativeProjectionOfPair | sopremo/sopremo-cleansing/src/test/java/eu/stratosphere/sopremo/cleansing/record_linkage/IntraSourceRecordLinkageTestBase.java:101-108 | `getAggregativeProjection` (`AggregativeProjection`) of a pair is the object with "names" = both first names and "ids" = both ids. |
| DisjunctPartitioningIntraSourceTest.DisjunctPartitioningIntraSourceTest.constructor | sopremo/sopremo-cleansing/src/test/java/eu/stratosphere/sopremo/cleansing/record_linkage/DisjunctPratitioningRecordLinkageIntraSourceTest.java:48-61 | Keeps the parameters. The left keys are one field access per name of `blockingKeys[0]`, in order, and the right keys the same for `blockingKeys[1]`. |
| DisjunctPartitioningIntraSourceTest.DisjunctPartitioningIntraSourceTest.ExpectedOutput | sopremo/sopremo-cleansing/src/test/java/eu/stratosphere/sopremo/cleansing/record_linkage/DisjunctPratitioningRecordLinkageIntraSourceTest.java:67-103 | The expected output is the duplicate projection of every emitted pair of fixture records, in nested-loop order. The duplicate projection is the configured one, or else the array of both identifiers. |
| DisjunctPartitioningIntraSourceTest.DefaultProjectionOfPair | sopremo/sopremo-cleansing/src/test/java/eu/stratosphere/sopremo/cleansing/record_linkage/DisjunctPratitioningRecordLinkageIntraSourceTest.java:74-78 | Without a configured projection, an emitted pair is output as the array of both records' identifier projections. |
| DisjunctPartitioningIntraSourceTest.SelectThenProject | sopremo/sopremo-cleansing/src/test/java/eu/stratosphere/sopremo/cleansing/record_linkage/DisjunctPratitioningRecordLinkageIntraSourceTest.java:76-78 | A path of an input selection and the identifier projection applies the projection to the selected record. |
| DisjunctPartitioningIntraSourceTest.NaiveLinkage | sopremo/sopremo-cleansing/src/test/java/eu/stratosphere/sopremo/cleansing/record_linkage/DisjunctPratitioningRecordLinkageIntraSourceTest.java:81-103 | The outer loop appends the output of each left record's row, so the result is `Outputs` of the emitted pairs in nested order. |
| DisjunctPartitioningIntraSourceTest.ScanRow | sopremo/sopremo-cleansing/src/test/java/eu/stratosphere/sopremo/cleansing/record_linkage/DisjunctPratitioningRecordLinkageIntraSourceTest.java:82-102 | The inner loop skips the right records up to and including the left one. It then appends the projection of each later record that shares a blocking bin and has a similarity strictly above the threshold. |
| DisjunctPartitioningIntraSourceTest.SameBlockingBin | sopremo/sopremo-cleansing/src/test/java/eu/stratosphere/sopremo/cleansing/record_linkage/DisjunctPratitioningRecordLinkageIntraSourceTest.java:90-96 | The key scan answers true exactly when some blocking key evaluates equal on both records. |
| DisjunctPartitioningIntraSourceTest.EmittedPairsExactly | sopremo/sopremo-cleansing/src/test/java/eu/stratosphere/sopremo/cleansing/record_linkage/DisjunctPratitioningRecordLinkageIntraSourceTest.java:81-103 | A pair (i, j) is emitted exactly when i < j < the number of records, some key agrees, and the similarity is strictly above the threshold. So no record is paired with itself, each unordered pair comes at most once, and a similarity equal to the threshold is not enough. |
| DisjunctPartitioningIntraSourceTest.RowPairsMember | sopremo/sopremo-cleansing/src/test/java/eu/stratosphere/sopremo/cleansing/record_linkage/DisjunctPratitioningRecordLinkageIntraSourceTest.java:83-101 | The pairs of one row are exactly the decided pairs of that left position with an earlier right position. |
| DisjunctPartitioningIntraSourceTest.PairsBeforeMember | sopremo/sopremo-cleansing/src/test/java/eu/stratosphere/sopremo/cleansing/record_linkage/DisjunctPratitioningRecordLinkageIntraSourceTest.java:81-103 | The pairs of the first m rows are exactly the decided pairs with a left position below m. |
| DisjunctPartitioningIntraSourceTest.RowPairsBounds | sopremo/sopremo-cleansing/src/test/java/eu/stratosphere/sopremo/cleansing/record_linkage/DisjunctPratitioningRecordLinkageIntraSourceTest.java:83-101 | Every pair of one row has that row as its left position and a right position in range. |
| DisjunctPartitioningIntraSourceTest.PairsBeforeBounds | sopremo/sopremo-cleansing/src/test/java/eu/stratosphere/sopremo/cleansing/record_linkage/DisjunctPratitioningRecordLinkageIntraSourceTest.java:81-103 | Every pair of the first m rows has positions in range. |
| DisjunctPartitioningIntraSourceTest.LexIncreasingAppend | sopremo/sopremo-cleansing/src/test/java/eu/stratosphere/sopremo/cleansing/record_linkage/DisjunctPratitioningRecordLinkageIntraSourceTest.java:81-103 | Appending a later row to earlier ones keeps the lexicographic order. |
| DisjunctPartitioningIntraSourceTest.RowPairsIncreasing | sopremo/sopremo-cleansing/src/test/java/eu/stratosphere/sopremo/cleansing/record_linkage/DisjunctPratitioningRecordLinkageIntraSourceTest.java:83-101 | Within a row, the pairs come by increasing right position. |
| DisjunctPartitioningIntraSourceTest.PairsBeforeIncreasing | sopremo/sopremo-cleansing/src/test/java/eu/stratosphere/sopremo/cleansing/record_linkage/DisjunctPratitioningRecordLinkageIntraSourceTest.java:81-103 | The outputs come in nested-loop order: by left position, then by right position. |
| DisjunctPartitioningIntraSourceTest.GetParameters | sopremo/sopremo-cleansing/src/test/java/eu/stratosphere/sopremo/cleansing/record_linkage/DisjunctPratitioningRecordLinkageIntraSourceTest.java:125-138 | `getParameters` is the grid in nested order: projection, then threshold, then blocking keys, then useId. |
| DisjunctPartitioningIntraSourceTest.CombineAll | sopremo/sopremo-cleansing/src/test/java/eu/stratosphere/sopremo/cleansing/record_linkage/DisjunctPratitioningRecordLinkageIntraSourceTest.java:131-135 | The four nested loops build the whole grid. |
| DisjunctPartitioningIntraSourceTest.CombineThresholds | sopremo/sopremo-cleansing/src/test/java/eu/stratosphere/sopremo/cleansing/record_linkage/DisjunctPratitioningRecordLinkageIntraSourceTest.java:132-135 | The loop over thresholds builds the block of one projection. |
| DisjunctPartitioningIntraSourceTest.CombineKeys | sopremo/sopremo-cleansing/src/test/java/eu/stratosphere/sopremo/cleansing/record_linkage/DisjunctPratitioningRecordLinkageIntraSourceTest.java:133-135 | The loop over blocking keys builds the block of one threshold. |
| DisjunctPartitioningIntraSourceTest.CombineUseIds | sopremo/sopremo-cleansing/src/test/java/eu/stratosphere/sopremo/cleansing/record_linkage/DisjunctPratitioningRecordLinkageIntraSourceTest.java:134-135 | The loop over useIds builds the block of one blocking-key combination. |
| DisjunctPartitioningIntraSourceTest.UseIdBlockLength | sopremo/sopremo-cleansing/src/test/java/eu/stratosphere/sopremo/cleansing/record_linkage/DisjunctPratitioningRecordLinkageIntraSourceTest.java:134-135 | A useId block has one tuple per useId value. |
| DisjunctPartitioningIntraSourceTest.KeysBlockLength | sopremo/sopremo-cleansing/src/test/java/eu/stratosphere/sopremo/cleansing/record_linkage/DisjunctPratitioningRecordLinkageIntraSourceTest.java:133-135 | A blocking-key block has \|combined\| × \|useIds\| tuples. |
| DisjunctPartitioningIntraSourceTest.ThresholdBlockLength | sopremo/sopremo-cleansing/src/test/java/eu/stratosphere/sopremo/cleansing/record_linkage/DisjunctPratitioningRecordLinkageIntraSourceTest.java:132-135 | A threshold block has \|thresholds\| × \|combined\| × \|useIds\| tuples. |
| DisjunctPartitioningIntraSourceTest.GridLength | sopremo/sopremo-cleansing/src/test/java/eu/stratosphere/sopremo/cleansing/record_linkage/DisjunctPratitioningRecordLinkageIntraSourceTest.java:131-135 | The grid has the product of the four lengths as its number of tuples. |
| DisjunctPartitioningIntraSourceTest.TimesIsProduct | sopremo/sopremo-cleansing/src/test/java/eu/stratosphere/sopremo/cleansing/record_linkage/DisjunctPratitioningRecordLinkageIntraSourceTest.java:131-135 | The repeated-sum count equals the product. |
| DisjunctPartitioningIntraSourceTest.UseIdBlockMembers | sopremo/sopremo-cleansing/src/test/java/eu/stratosphere/sopremo/cleansing/record_linkage/DisjunctPratitioningRecordLinkageIntraSourceTest.java:134-135 | A tuple is in a useId block exactly when its useId is one of the values and its other components are the block's. |
| DisjunctPartitioningIntraSourceTest.KeysBlockMembers | sopremo/sopremo-cleansing/src/test/java/eu/stratosphere/sopremo/cleansing/record_linkage/DisjunctPratitioningRecordLinkageIntraSourceTest.java:133-135 | A tuple is in a blocking-key block exactly when its keys and useId are among the values and its other components are the block's. |
| DisjunctPartitioningIntraSourceTest.ThresholdBlockMembers | sopremo/sopremo-cleansing/src/test/java/eu/stratosphere/sopremo/cleansing/record_linkage/DisjunctPratitioningRecordLinkageIntraSourceTest.java:132-135 | A tuple is in a threshold block exactly when its threshold, keys and useId are among the values and its projection is the block's. |
| DisjunctPartitioningIntraSourceTest.GridMembers | sopremo/sopremo-cleansing/src/test/java/eu/stratosphere/sopremo/cleansing/record_linkage/DisjunctPratitioningRecordLinkageIntraSourceTest.java:131-135 | A tuple is in the grid exactly when each of its components is among the corresponding values. |
| DisjunctPartitioningIntraSourceTest.GetParametersCombinations | sopremo/sopremo-cleansing/src/test/java/eu/stratosphere/sopremo/cleansing/record_linkage/DisjunctPratitioningRecordLinkageIntraSourceTest.java:125-138 | `getParameters` returns 2 × 3 × \|CombinedBlockingKeys\| × 2 tuples. A tuple is among them exactly when its projection is none or the aggregative one, its threshold is 0.0, 0.5 or 1.0, and its blocking keys are one of the combinations. |
| StreamArrayNodes.ValueOf | sopremo/sopremo-common/src/main/java/eu/stratosphere/sopremo/StreamArrayNode.java:146-151 | `valueOf(it, true)` is a Resettable view holding the iterator's remaining nodes in order, which drains the iterator. `valueOf(it, false)` is an untouched Iterating view over the iterator. |
| StreamArrayNodes.Iterating.constructor | sopremo/sopremo-common/src/main/java/eu/stratosphere/sopremo/StreamArrayNode.java:154-162 | A new view has `currentIndex == -1` and no current node. |
| StreamArrayNodes.Iterating.HasNext | sopremo/sopremo-common/src/main/java/eu/stratosphere/sopremo/StreamArrayNode.java:207-210 | `hasNext` holds exactly when the underlying iterator has a node left. |
| StreamArrayNodes.Iterating.IsEmpty | sopremo/sopremo-common/src/main/java/eu/stratosphere/sopremo/StreamArrayNode.java:213-215 | `isEmpty` holds exactly when the iterator has nothing left. |
| StreamArrayNodes.Iterating.Size | sopremo/sopremo-common/src/main/java/eu/stratosphere/sopremo/StreamArrayNode.java:244-246 | `size` is always 0. |
| StreamArrayNodes.Iterating.IsResettable | sopremo/sopremo-common/src/main/java/eu/stratosphere/sopremo/StreamArrayNode.java:218-220 | The Iterating view is not resettable. |
| StreamArrayNodes.Iterating.Next | sopremo/sopremo-common/src/main/java/eu/stratosphere/sopremo/StreamArrayNode.java:223-226 | `next` raises `currentIndex` by exactly one, even when the iterator is exhausted. It returns the next node, or NoSuchElementException at the end. |
| StreamArrayNodes.Iterating.Skip | sopremo/sopremo-common/src/main/java/eu/stratosphere/sopremo/StreamArrayNode.java:248-251 | `skip(count)` reads `max(count, 0)` nodes and keeps the last one read as the current node. When the iterator runs out first, it stops with NoSuchElementException after the extra increment of `next`. |
| StreamArrayNodes.Iterating.Get | sopremo/sopremo-common/src/main/java/eu/stratosphere/sopremo/StreamArrayNode.java:186-192 | `get(index)` gives IllegalArgumentException for an index below `currentIndex`, changing nothing. At `currentIndex` it returns the current node without reading. Further ahead it reads forward until `currentIndex == index` and returns the node `index - currentIndex` positions on. Past the end it gives NoSuchElementException. |
| StreamArrayNodes.Iterating.Remove | sopremo/sopremo-common/src/main/java/eu/stratosphere/sopremo/StreamArrayNode.java:229-231 | `remove` always gives UnsupportedOperationException. |
| StreamArrayNodes.Iterating.EnsureResettable | sopremo/sopremo-common/src/main/java/eu/stratosphere/sopremo/StreamArrayNode.java:170-172 | `ensureResettable` is a new Resettable view holding what is left in the iterator. |
| StreamArrayNodes.Iterating.ToArray | sopremo/sopremo-common/src/main/java/eu/stratosphere/sopremo/StreamArrayNode.java:259-262 | `toArray` (through `assumeBeginning`, lines 164-167) on a view that has been read gives IllegalStateException. On an untouched view it is a new array of the iterator's remaining nodes, in order. |
| StreamArrayNodes.Resettable.constructor | sopremo/sopremo-common/src/main/java/eu/stratosphere/sopremo/StreamArrayNode.java:268-271 | The constructor drains the iterator into the list, in order. |
| StreamArrayNodes.Resettable.Get | sopremo/sopremo-common/src/main/java/eu/stratosphere/sopremo/StreamArrayNode.java:286-288 | `get(i)` is element i of the list, and IndexOutOfBoundsException outside it. |
| StreamArrayNodes.Resettable.Size | sopremo/sopremo-common/src/main/java/eu/stratosphere/sopremo/StreamArrayNode.java:323-325 | `size` is the number of nodes. |
| StreamArrayNodes.Resettable.IsEmpty | sopremo/sopremo-common/src/main/java/eu/stratosphere/sopremo/StreamArrayNode.java:304-306 | `isEmpty` holds exactly when the size is 0. |
| StreamArrayNodes.Resettable.IsResettable | sopremo/sopremo-common/src/main/java/eu/stratosphere/sopremo/StreamArrayNode.java:309-311 | The Resettable view is resettable. |
| StreamArrayNodes.Resettable.ToArray | sopremo/sopremo-common/src/main/java/eu/stratosphere/sopremo/StreamArrayNode.java:333-335 | `toArray` is a new array equal to the list. |
| StreamArrayNodes.PathField | sopremo/sopremo-common/src/main/java/eu/stratosphere/sopremo/StreamArrayNode.java:117-120 | `path(fieldName)` is always the missing node. |
| StreamArrayNodes.RemoveAll | sopremo/sopremo-common/src/main/java/eu/stratosphere/sopremo/StreamArrayNode.java:122-125 | `removeAll` always gives UnsupportedOperationException. |
| ContractUtil.GetContractClass | sopremo/sopremo-common/src/main/java/eu/stratosphere/pact/common/plan/ContractUtil.java:51-56 | A registered class gets its own registered contract class, and any contract found is one of the registered contract classes. |
| ContractUtil.Superclass | sopremo/sopremo-common/src/main/java/eu/stratosphere/pact/common/plan/ContractUtil.java:53-54 | Every stub class other than `Stub` has a superclass strictly closer to `Stub`, so the recursion of `getContractClass` ends. |
| ContractUtil.Ancestors | sopremo/sopremo-common/src/main/java/eu/stratosphere/pact/common/plan/ContractUtil.java:51-56 | The classes the lookup visits run from the class itself to `Stub`, one per level. |
| ContractUtil.RegisteredStubs | sopremo/sopremo-common/src/main/java/eu/stratosphere/pact/common/plan/ContractUtil.java:33-55 | Each of the seven registered stub classes maps to its own contract class, and `Stub` maps to none. |
| ContractUtil.UnregisteredInherits | sopremo/sopremo-common/src/main/java/eu/stratosphere/pact/common/plan/ContractUtil.java:52-54 | An unregistered class other than `Stub` gets the result of its superclass. |
| ContractUtil.NoneWithoutRegisteredAncestor | sopremo/sopremo-common/src/main/java/eu/stratosphere/pact/common/plan/ContractUtil.java:51-56 | The lookup gives none exactly when no class from the class up to `Stub` is registered. |
| ContractUtil.NearestRegisteredAncestor | sopremo/sopremo-common/src/main/java/eu/stratosphere/pact/common/plan/ContractUtil.java:51-56 | The lookup gives the contract of the nearest registered ancestor. |
| ContractUtil.GetInputs | sopremo/sopremo-common/src/main/java/eu/stratosphere/pact/common/plan/ContractUtil.java:66-75 | `getInputs` has one input for a data sink and for a single-input contract, two (first, then second) for a dual-input contract, and none otherwise. |
| ContractUtil.SetInputs | sopremo/sopremo-common/src/main/java/eu/stratosphere/pact/common/plan/ContractUtil.java:86-101 | `setInputs` gives IllegalArgumentException, before assigning anything, when the length does not match the kind. Otherwise `getInputs` reads the given inputs back. The slots of the other kind are never touched. A contract of any other kind is left alone whatever the length. Setting the inputs `getInputs` returns changes nothing. |
| ContractUtil.RegisteredArity | sopremo/sopremo-common/src/main/java/eu/stratosphere/pact/common/plan/ContractUtil.java:33-75 | Map, reduce and output-format stubs give contracts with one input. Co-group, cross and match stubs give two. Input formats give none. |

## Left out

- Serialization (`serialize` with a `JsonGenerator`), `toString` and `hashCode` are output and hashing through Jackson. They are not modelled. The untouched check that `Iterating.serialize` shares with `toArray` is modelled through `toArray`.
- `Iterating.equals` casts its argument to `Resettable` (StreamArrayNode.java line 182). That only raises a Java ClassCastException, so `equals` of the views is not modelled.
- `path(int)`, which returns Java null, and `getElements` are not modelled.
- `ContainerExpression.replace` (the `super.replace` call at PathExpression.java line 91) and `Writable.set` depend on classes that are not part of this model.
- `PathExpressions.PathExpression.Replace` builds the new fragment list in a local sequence and assigns it once, instead of editing the list in place with `subList(...).clear()` and `addAll`. Aliasing of the fragment list through `getFragments()` is not modelled. Nor is a sought path or replacement that is the path object itself (`p.replace(x, p)` or `p.replace(p, x)`): `wrapAsPath` then returns `this`, so the Java loop inserts, compares against and sizes by the list it is editing, while the model reads the old fragments as a value.
- PathExpressions.RunAsWritten: the loop as written is run for a given number of iterations (`fuel`), because it does not always stop. Its divergence is stated for every number of iterations.
- PathExpressions.PathExpression.Equals compares the class through the `writable` flag. Reference identity (`this == obj`) is not modelled, because equal fragment lists give the same answer.
- The similarity metrics (Levenshtein, Jaccard, `NumericDifference`) and the `AVERAGE` built-in are external or not shown. Their floating-point results are uninterpreted `real`s, compared only with the threshold.
- `JsonNodeComparator` is a parameter. The Jackson node classes are the `Json` datatype.
- `SopremoTestPlan.run`, the execution of the PACT plan, and the internals of `RecordLinkage` and `DisjunctPartitioning` are not modelled (I/O, scheduling, concurrency). The plan holds its first input and the expected output is returned instead of being added to the plan.
- The oracle compares `left == right` by reference identity of the plan's input entries. The model compares positions, which agree because every input entry is its own object.
- The oracle builds the operator with the left blocking keys on both sides (`new DisjunctPartitioning(leftBlockingKeys, leftBlockingKeys)`, line 70). The model does the same, so the right keys built by the constructor are never used.
- DisjunctPartitioningIntraSourceTest.DisjunctPartitioningIntraSourceTest.ExpectedOutput uses the corrected similarity expression (see Findings). With the expression as written, the same loop and lemmas apply with `SimilarityFunctionAsWritten` in its place.
- `getParameters` returns Java `Object[]` tuples. They are a `Parameters` datatype here, and the constant `CombinedBlockingKeys` is a parameter, because its value is not part of this model.
- RecordLinkageTestBase.SopremoTestPlan.AddInputs stands for the nine chained `add` calls as one call that appends the records in order.
- ContractUtil.Superclass: the seven registered library stub classes are taken to extend `Stub` directly, because their declarations are not part of this model. User stub classes carry their superclass.
- ContractUtil.GetInputs: the three `instanceof` tests are modelled as exclusive kinds, taken in the source's order (data sink first). The contract classes are not part of this model.
- ContractUtil.SetInputs: a Java null `inputs` array, which would raise NullPointerException, is not modelled. Input slots may hold null.
- StreamArrayNodes.Iterating.Get states the node it returns relative to the iterator's position, not as an absolute index. The iterator is shared (`ensureResettable` and `toArray` consume it without moving `currentIndex`), so an absolute position does not always hold.
- The `Iterator` the views read is modelled by `NodeIterator`, holding the nodes it has not returned yet.
- PathExpressions.WritableEvaluable: which expression kinds implement `WritableEvaluable` is taken from `PathExpression.Writable` (line 121) and, for `InputSelection` and `ObjectAccess`, assumed; those classes are not part of this model.
- DisjunctPartitioningIntraSourceTest.DisjunctPartitioningIntraSourceTest.constructor requires at least two key lists: the ArrayIndexOutOfBoundsException that lines 55-58 raise for fewer is not modelled, because a Dafny constructor cannot fail.
- StreamArrayNodes.Iterating.Get, Skip and Next use unbounded integers: Java's 32-bit `int` wrap-around of `index - currentIndex` (line 190) and of `currentIndex++` (line 224) is not modelled. For `index == Integer.MAX_VALUE` on an untouched view, Java skips a negative count, reads nothing and returns null, where the model reads to the end.
- RecordLinkageTestBase.CreatePath reads `createPath("0", f)` as the path of `InputSelection(0)` and `ObjectAccess(f)`; the helper's source is not part of this model.
- ContractUtil.KindOf assigns each contract class its kind (data sink, single input, dual input, none) from the contract classes' names; their declarations are not part of this model.
- RecordLinkageTestBase.RecordLinkage.IdProjection defaults to the whole record (`SameValue`) when no identifier projection was set; the operator's source is not part of this model.
- `JNum(real)` stands for every Jackson numeric node, so an `IntNode` and a `DoubleNode` of the same value are equal here, while Jackson's `equals` tells them apart. This matters only for equality of numeric blocking-key values and numeric fragments.

## Findings

| source | as written | input that shows it | evidently intended | confidence | as-written member | corrected member |
|---|---|---|---|---|---|---|
| sopremo/sopremo-common/src/main/java/eu/stratosphere/sopremo/expressions/PathExpression.java:97-106 | After a match, the scan goes on at the next start index, inside the fragments just inserted. `size` grows when the replacement is longer. The resume `startIndex += replacePath.fragments.size()` is commented out at line 105. | fragments `[x]`, replace `x` by the path `[x, x]`: the loop never stops | resume right after the inserted fragments, at `startIndex + replaceSize`, replacing every occurrence of the original path once. Line 105 as commented out would, together with the loop's `startIndex++`, resume one fragment later and skip the fragment after the insertion; the corrected member resumes at `startIndex + replaceSize` | high, not executed | PathExpressions.AsWrittenDivergesOnSelfExtendingReplacement | PathExpressions.PathExpression.Replace |
| sopremo/sopremo-common/src/main/java/eu/stratosphere/sopremo/expressions/PathExpression.java:97-106 | After a match, the loop still increments `startIndex`. A replacement shorter than the sought path leaves the fragment that moved into `startIndex` unchecked. | fragments `[x, x]`, replace `x` by an empty path: the result is `[x]` | every occurrence replaced, giving `[]` | high, not executed | PathExpressions.AsWrittenSkipsAfterRemoval | PathExpressions.PathExpression.Replace |
| sopremo/sopremo-common/src/main/java/eu/stratosphere/sopremo/expressions/PathExpression.java:95-104 | An empty sought path matches at every start index without consuming anything. Each match inserts the replacement and raises `size`. | fragments `[x]`, replace an empty path by `x`: the loop never stops | nothing to replace, so the path is unchanged | medium, not executed | PathExpressions.AsWrittenDivergesOnEmptySoughtPath | PathExpressions.PathExpression.Replace |
| sopremo/sopremo-cleansing/src/test/java/eu/stratosphere/sopremo/cleansing/record_linkage/IntraSourceRecordLinkageTestBase.java:90 | `new NumericDifference(createPath("0", "age"), createPath("0", "age"), 10)` compares the first record's age with itself. | fixture records 2 and 7 (ages 70 and 69): their age score is the one for equal ages, and any right-hand record with the same names scores the same whatever its age | the second argument `createPath("1", "age")` | high, not executed | RecordLinkageTestBase.AsWrittenSimilarityIgnoresSecondAge | RecordLinkageTestBase.SimilarityComparesBothAges |
