/** The intra-source record-linkage test with disjunctive blocking: the expected output it
    computes with a naive nested loop over the fixture, and the grid of parameter
    combinations it runs over. */
module DisjunctPartitioningIntraSourceTest {
  import opened Wrappers
  import opened Json
  import opened Expressions
  import opened PathExpressions
  import opened RecordLinkageTestBase

  /** One field access per field name, in order. */
  function FieldAccesses(names: seq<string>): seq<Expr>
  {
    seq(|names|, i requires 0 <= i < |names| => ObjectAccess(names[i]))
  }

  /** What decides the expected output besides the records: the blocking keys that are
      compared, the similarity expression and its threshold, the projection of an
      emitted pair, and the external metrics. */
  datatype Linkage = Linkage(blockingKeys: seq<Expr>, similarity: Expr, threshold: real, duplicateProjection: Expr, ext: Externals)

  /** Disjunctive blocking: at least one key evaluates equal on both records. */
  predicate InSameBlockingBin(keys: seq<Expr>, left: Json, right: Json, ext: Externals)
  {
    exists k :: 0 <= k < |keys| && Eval(keys[k], left, ext) == Eval(keys[k], right, ext)
  }

  /** The pair of records at positions i and j is expected in the output: j comes after
      i, they share a blocking bin and their similarity is strictly above the threshold. */
  predicate Emits(records: seq<Json>, linkage: Linkage, i: nat, j: nat)
    requires i < |records| && j < |records|
  {
    && i < j
    && InSameBlockingBin(linkage.blockingKeys, records[i], records[j], linkage.ext)
    && DoubleValue(Eval(linkage.similarity, Pair(records[i], records[j]), linkage.ext)) > linkage.threshold
  }

  /** The oracle's decision for every ordered pair of positions: row i, column j tells
      whether the pair of records i and j is emitted. */
  function Decisions(records: seq<Json>, linkage: Linkage): (d: seq<seq<bool>>)
    ensures |d| == |records|
    ensures forall i :: 0 <= i < |d| ==> |d[i]| == |records|
  {
    seq(|records|, i requires 0 <= i < |records| =>
      seq(|records|, j requires 0 <= j < |records| => Emits(records, linkage, i, j)))
  }

  /** The decided pairs of row i with right position before m, by increasing right
      position. */
  function RowPairs(d: seq<seq<bool>>, i: nat, m: nat): seq<(nat, nat)>
    requires i < |d| && m <= |d[i]|
  {
    if m == 0 then []
    else RowPairs(d, i, m - 1) + (if d[i][m - 1] then [(i, m - 1)] else [])
  }

  /** The decided pairs whose left position comes before m, in nested loop order. */
  function PairsBefore(d: seq<seq<bool>>, m: nat): seq<(nat, nat)>
    requires m <= |d|
  {
    if m == 0 then []
    else PairsBefore(d, m - 1) + RowPairs(d, m - 1, |d[m - 1]|)
  }

  /** All emitted pairs, in the order the test expects their outputs. */
  function EmittedPairs(records: seq<Json>, linkage: Linkage): seq<(nat, nat)>
  {
    PairsBefore(Decisions(records, linkage), |records|)
  }

  /** Every pair names two positions of `records`. */
  predicate ValidPairs(records: seq<Json>, pairs: seq<(nat, nat)>)
  {
    forall k :: 0 <= k < |pairs| ==> pairs[k].0 < |records| && pairs[k].1 < |records|
  }

  /** The duplicate projection of each pair, in order. */
  function Outputs(records: seq<Json>, linkage: Linkage, pairs: seq<(nat, nat)>): seq<Json>
    requires ValidPairs(records, pairs)
  {
    if pairs == [] then []
    else
      var p := pairs[|pairs| - 1];
      Outputs(records, linkage, pairs[..|pairs| - 1]) + [Eval(linkage.duplicateProjection, Pair(records[p.0], records[p.1]), linkage.ext)]
  }

  /** The projection the test expects when none is configured: the array of the
      identifier projections of both records, each as a path after its input selection. */
  function DuplicateProjection(projection: Option<Expr>, idProjection: Expr): Expr
  {
    match projection
    case Some(p) => p
    case None => ArrayCreation([PathExpr(Flatten([InputSelection(0), idProjection])), PathExpr(Flatten([InputSelection(1), idProjection]))])
  }

  /** Without a configured projection an emitted pair is output as the array of both
      records' identifiers. */
  lemma DefaultProjectionOfPair(idProjection: Expr, left: Json, right: Json, ext: Externals)
    ensures Eval(DuplicateProjection(None, idProjection), Pair(left, right), ext)
         == JArr([Eval(idProjection, left, ext), Eval(idProjection, right, ext)])
  {
    var pair := Pair(left, right);
    SelectThenProject(0, idProjection, pair, ext);
    SelectThenProject(1, idProjection, pair, ext);
    var es := DuplicateProjection(None, idProjection).elements;
    assert EvalAll(es, pair, ext) == [Eval(es[0], pair, ext), Eval(es[1], pair, ext)];
  }

  /** The path of an input selection followed by the identifier projection applies the
      projection to the selected input. */
  lemma SelectThenProject(index: nat, idProjection: Expr, node: Json, ext: Externals)
    ensures Eval(PathExpr(Flatten([InputSelection(index), idProjection])), node, ext)
         == Eval(idProjection, Eval(InputSelection(index), node, ext), ext)
  {
    var path := [InputSelection(index), idProjection];
    FlattenPreservesEvaluation(path, node, ext);
    assert path[1..] == [idProjection];
    assert [idProjection][1..] == [];
    calc {
      EvalPath(path, node, ext);
      EvalPath([idProjection], Eval(InputSelection(index), node, ext), ext);
      EvalPath([idProjection][1..], Eval(idProjection, Eval(InputSelection(index), node, ext), ext), ext);
    }
  }

  /** The key scan of the oracle: stops at the first key that agrees on both records. */
  method SameBlockingBin(keys: array<Expr>, left: Json, right: Json, ext: Externals) returns (inSameBlockingBin: bool)
    ensures inSameBlockingBin == InSameBlockingBin(keys[..], left, right, ext)
  {
    inSameBlockingBin := false;
    var index := 0;
    while index < keys.Length && !inSameBlockingBin
      invariant 0 <= index <= keys.Length
      invariant inSameBlockingBin ==> 1 <= index && Eval(keys[index - 1], left, ext) == Eval(keys[index - 1], right, ext)
      invariant !inSameBlockingBin ==> forall k :: 0 <= k < index ==> Eval(keys[k], left, ext) != Eval(keys[k], right, ext)
      decreases keys.Length - index
    {
      if Eval(keys[index], left, ext) == Eval(keys[index], right, ext) {
        inSameBlockingBin := true;
      }
      index := index + 1;
    }
    if inSameBlockingBin {
      assert keys[..][index - 1] == keys[index - 1];
    }
  }

  /** One parameter combination of the test: threshold, projection, useId, blocking keys. */
  datatype Parameters = Parameters(threshold: real, projection: Option<Expr>, useId: bool, blockingKeys: seq<seq<string>>)

  class DisjunctPartitioningIntraSourceTest {
    const threshold: real
    const projection: Option<Expr>
    const useId: bool
    const leftBlockingKeys: array<Expr>
    const rightBlockingKeys: array<Expr>

    /** Keeps the parameters and builds one field access per blocking-key name: the left
        keys from blockingKeys[0], the right keys from blockingKeys[1]. */
    constructor (threshold: real, projection: Option<Expr>, useId: bool, blockingKeys: seq<seq<string>>)
      requires |blockingKeys| >= 2
      ensures this.threshold == threshold && this.projection == projection && this.useId == useId
      ensures fresh(leftBlockingKeys) && fresh(rightBlockingKeys)
      ensures leftBlockingKeys[..] == FieldAccesses(blockingKeys[0])
      ensures rightBlockingKeys[..] == FieldAccesses(blockingKeys[1])
    {
      this.threshold := threshold;
      this.projection := projection;
      this.useId := useId;
      var left := new Expr[|blockingKeys[0]|];
      for index := 0 to left.Length
        invariant forall k :: 0 <= k < index ==> left[k] == ObjectAccess(blockingKeys[0][k])
      {
        left[index] := ObjectAccess(blockingKeys[0][index]);
      }
      assert left[..] == FieldAccesses(blockingKeys[0]);
      this.leftBlockingKeys := left;
      var right := new Expr[|blockingKeys[1]|];
      for index := 0 to right.Length
        invariant left[..] == FieldAccesses(blockingKeys[0])
        invariant forall k :: 0 <= k < index ==> right[k] == ObjectAccess(blockingKeys[1][k])
      {
        right[index] := ObjectAccess(blockingKeys[1][index]);
      }
      assert right[..] == FieldAccesses(blockingKeys[1]);
      this.rightBlockingKeys := right;
    }

    /** The linkage the oracle checks: the left blocking keys on both sides, the
        similarity function, the threshold, and the configured projection or else the pair
        of identifiers ("id" when useId, the whole record otherwise). */
    function ExpectedLinkage(ext: Externals): Linkage
      reads leftBlockingKeys
    {
      Linkage(leftBlockingKeys[..], SimilarityFunction(), threshold,
              DuplicateProjection(projection, if useId then ObjectAccess("id") else SameValue), ext)
    }

    /** pactCodeShouldPerformLikeStandardImplementation without running the plan: the
        expected output, one projected pair per emitted pair of fixture records, in nested
        loop order. */
    method ExpectedOutput(ext: Externals) returns (expected: seq<Json>)
      ensures ValidPairs(Fixture(), EmittedPairs(Fixture(), ExpectedLinkage(ext)))
      ensures expected == Outputs(Fixture(), ExpectedLinkage(ext), EmittedPairs(Fixture(), ExpectedLinkage(ext)))
    {
      var similarityFunction := SimilarityFunction();
      var recordLinkage := new RecordLinkage(leftBlockingKeys[..], leftBlockingKeys[..], similarityFunction, threshold);
      var plan := CreateTestPlan(recordLinkage, useId, projection);

      var duplicateProjection: Expr;
      if projection.Some? {
        duplicateProjection := projection.value;
      } else {
        var first := new PathExpression([InputSelection(0), recordLinkage.IdProjection(0)]);
        var second := new PathExpression([InputSelection(1), recordLinkage.IdProjection(0)]);
        duplicateProjection := ArrayCreation([first.AsExpr(), second.AsExpr()]);
      }
      ghost var linkage := Linkage(leftBlockingKeys[..], similarityFunction, threshold, duplicateProjection, ext);
      assert linkage == ExpectedLinkage(ext);

      expected := NaiveLinkage(plan.input, leftBlockingKeys, similarityFunction, threshold, duplicateProjection, ext);
    }
  }

  /** The nested loop of the oracle: every left record against every right record after
      it, kept when some key agrees and the similarity is strictly above the threshold. */
  method NaiveLinkage(records: seq<Json>, keys: array<Expr>, similarityFunction: Expr, threshold: real,
                      duplicateProjection: Expr, ext: Externals) returns (expected: seq<Json>)
    ensures ValidPairs(records, EmittedPairs(records, Linkage(keys[..], similarityFunction, threshold, duplicateProjection, ext)))
    ensures var linkage := Linkage(keys[..], similarityFunction, threshold, duplicateProjection, ext);
            expected == Outputs(records, linkage, EmittedPairs(records, linkage))
  {
    ghost var linkage := Linkage(keys[..], similarityFunction, threshold, duplicateProjection, ext);
    ghost var d := Decisions(records, linkage);
    expected := [];
    ghost var pairs: seq<(nat, nat)> := [];
    for i := 0 to |records|
      invariant pairs == PairsBefore(d, i)
      invariant ValidPairs(records, pairs)
      invariant expected == Outputs(records, linkage, pairs)
    {
      assert |d[i]| == |records|;
      expected := ScanRow(records, keys, similarityFunction, threshold, duplicateProjection, ext, i, expected, pairs, d);
      pairs := pairs + RowPairs(d, i, |d[i]|);
    }
  }

  /** The inner loop of the oracle for left record i: skips the right records up to and
      including i itself, then appends the projection of each pair that shares a blocking
      bin and is similar enough. */
  method ScanRow(records: seq<Json>, keys: array<Expr>, similarityFunction: Expr, threshold: real,
                 duplicateProjection: Expr, ext: Externals, i: nat, expected0: seq<Json>, ghost pairs0: seq<(nat, nat)>,
                 ghost d: seq<seq<bool>>)
    returns (expected: seq<Json>)
    requires i < |records| && ValidPairs(records, pairs0)
    requires expected0 == Outputs(records, Linkage(keys[..], similarityFunction, threshold, duplicateProjection, ext), pairs0)
    requires d == Decisions(records, Linkage(keys[..], similarityFunction, threshold, duplicateProjection, ext))
    ensures var linkage := Linkage(keys[..], similarityFunction, threshold, duplicateProjection, ext);
            && ValidPairs(records, pairs0 + RowPairs(d, i, |records|))
            && expected == Outputs(records, linkage, pairs0 + RowPairs(d, i, |records|))
  {
    ghost var linkage := Linkage(keys[..], similarityFunction, threshold, duplicateProjection, ext);
    expected := expected0;
    ghost var pairs := pairs0;
    var skipPairs := true;
    for j := 0 to |records|
      invariant skipPairs <==> j <= i
      invariant pairs == pairs0 + RowPairs(d, i, j)
      invariant ValidPairs(records, pairs)
      invariant expected == Outputs(records, linkage, pairs)
    {
      if i == j {
        skipPairs := false;
        continue;
      } else if skipPairs {
        continue;
      }
      var inSameBlockingBin := SameBlockingBin(keys, records[i], records[j], ext);
      if !inSameBlockingBin {
        continue;
      }
      var pair := Pair(records[i], records[j]);
      if DoubleValue(Eval(similarityFunction, pair, ext)) > threshold {
        assert (pairs + [(i, j)])[..|pairs|] == pairs;
        expected := expected + [Eval(duplicateProjection, pair, ext)];
        pairs := pairs + [(i, j)];
      }
    }
  }

  /** Membership in a concatenation: membership in either part. */
  lemma AppendMember<T>(xs: seq<T>, ys: seq<T>, x: T)
    ensures x in xs + ys <==> x in xs || x in ys
  {
  }

  /** Membership in one row: exactly the decided pairs of that row before m. */
  lemma {:induction false} RowPairsMember(d: seq<seq<bool>>, i: nat, m: nat, p: (nat, nat))
    requires i < |d| && m <= |d[i]|
    ensures p in RowPairs(d, i, m) <==> p.0 == i && p.1 < m && d[i][p.1]
    decreases m
  {
    if m > 0 {
      var last: nat := m - 1;
      var front := RowPairs(d, i, last);
      var back: seq<(nat, nat)> := if d[i][last] then [(i, last)] else [];
      assert p in RowPairs(d, i, m) <==> p in front || p in back by {
        AppendMember(front, back, p);
      }
      assert p in front <==> p.0 == i && p.1 < last && d[i][p.1] by {
        RowPairsMember(d, i, last, p);
      }
    }
  }

  /** Membership before position m: exactly the decided pairs whose left position is
      before m. */
  lemma {:induction false} PairsBeforeMember(d: seq<seq<bool>>, m: nat, p: (nat, nat))
    requires m <= |d|
    ensures p in PairsBefore(d, m) <==> p.0 < m && p.1 < |d[p.0]| && d[p.0][p.1]
    decreases m
  {
    if m > 0 {
      var last: nat := m - 1;
      var front := PairsBefore(d, last);
      var row := RowPairs(d, last, |d[last]|);
      assert p in PairsBefore(d, m) <==> p in front || p in row by {
        AppendMember(front, row, p);
      }
      assert p in front <==> p.0 < last && p.1 < |d[p.0]| && d[p.0][p.1] by {
        PairsBeforeMember(d, last, p);
      }
      assert p in row <==> p.0 == last && p.1 < |d[last]| && d[last][p.1] by {
        RowPairsMember(d, last, |d[last]|, p);
      }
    }
  }

  /** The positions in one row: its left position and right positions before m. */
  lemma {:induction false} RowPairsBounds(d: seq<seq<bool>>, i: nat, m: nat)
    requires i < |d| && m <= |d[i]|
    ensures forall p :: p in RowPairs(d, i, m) ==> p.0 == i && p.1 < m
    decreases m
  {
    if m > 0 {
      var last: nat := m - 1;
      var front := RowPairs(d, i, last);
      var back: seq<(nat, nat)> := if d[i][last] then [(i, last)] else [];
      RowPairsBounds(d, i, last);
      forall p: (nat, nat) | p in RowPairs(d, i, m) ensures p.0 == i && p.1 < m {
        AppendMember(front, back, p);
      }
    }
  }

  /** The positions before m: left positions before m, right positions within their row. */
  lemma {:induction false} PairsBeforeBounds(d: seq<seq<bool>>, m: nat)
    requires m <= |d|
    ensures forall p :: p in PairsBefore(d, m) ==> p.0 < m && p.1 < |d[p.0]|
    decreases m
  {
    if m > 0 {
      var last: nat := m - 1;
      var front := PairsBefore(d, last);
      var row := RowPairs(d, last, |d[last]|);
      PairsBeforeBounds(d, last);
      RowPairsBounds(d, last, |d[last]|);
      forall p: (nat, nat) | p in PairsBefore(d, m) ensures p.0 < m && p.1 < |d[p.0]| {
        AppendMember(front, row, p);
      }
    }
  }

  /** The expected pairs are exactly the pairs of distinct positions i < j whose records
      agree on some blocking key and whose similarity is strictly above the threshold: no
      record is paired with itself, each unordered pair is considered once, and a
      similarity equal to the threshold is not enough. */
  lemma EmittedPairsExactly(records: seq<Json>, linkage: Linkage)
    ensures ValidPairs(records, EmittedPairs(records, linkage))
    ensures forall p :: p in EmittedPairs(records, linkage) <==>
      && p.0 < p.1 < |records|
      && InSameBlockingBin(linkage.blockingKeys, records[p.0], records[p.1], linkage.ext)
      && DoubleValue(Eval(linkage.similarity, Pair(records[p.0], records[p.1]), linkage.ext)) > linkage.threshold
  {
    var d := Decisions(records, linkage);
    var pairs := EmittedPairs(records, linkage);
    PairsBeforeBounds(d, |records|);
    forall k | 0 <= k < |pairs| ensures pairs[k].0 < |records| && pairs[k].1 < |records| {
      assert pairs[k] in pairs;
    }
    forall p: (nat, nat)
      ensures p in pairs <==>
        && p.0 < p.1 < |records|
        && InSameBlockingBin(linkage.blockingKeys, records[p.0], records[p.1], linkage.ext)
        && DoubleValue(Eval(linkage.similarity, Pair(records[p.0], records[p.1]), linkage.ext)) > linkage.threshold
    {
      PairsBeforeMember(d, |records|, p);
    }
  }

  /** Lexicographic order on position pairs: by left position, then by right position. */
  predicate LexLess(p: (nat, nat), q: (nat, nat))
  {
    p.0 < q.0 || (p.0 == q.0 && p.1 < q.1)
  }

  /** Each pair comes strictly before the next one in lexicographic order. */
  predicate LexIncreasing(pairs: seq<(nat, nat)>)
  {
    forall a, b :: 0 <= a < b < |pairs| ==> LexLess(pairs[a], pairs[b])
  }

  /** Joining two increasing sequences, all of the first below all of the second. */
  lemma LexIncreasingAppend(xs: seq<(nat, nat)>, ys: seq<(nat, nat)>)
    requires LexIncreasing(xs) && LexIncreasing(ys)
    requires forall p, q :: p in xs && q in ys ==> LexLess(p, q)
    ensures LexIncreasing(xs + ys)
  {
    var zs := xs + ys;
    forall a, b | 0 <= a < b < |zs| ensures LexLess(zs[a], zs[b]) {
      if a < |xs| && b >= |xs| {
        assert zs[a] in xs && zs[b] == ys[b - |xs|];
      } else if a >= |xs| {
        assert zs[a] == ys[a - |xs|] && zs[b] == ys[b - |xs|];
      }
    }
  }

  /** One row is increasing. */
  lemma {:induction false} RowPairsIncreasing(d: seq<seq<bool>>, i: nat, m: nat)
    requires i < |d| && m <= |d[i]|
    ensures LexIncreasing(RowPairs(d, i, m))
    decreases m
  {
    if m > 0 {
      var last: nat := m - 1;
      RowPairsIncreasing(d, i, last);
      RowPairsBounds(d, i, last);
      LexIncreasingAppend(RowPairs(d, i, last), if d[i][last] then [(i, last)] else []);
    }
  }

  /** The decided pairs appear in nested loop order, outer loop over the left position:
      strictly increasing in lexicographic order, so also without repetition. */
  lemma {:induction false} PairsBeforeIncreasing(d: seq<seq<bool>>, m: nat)
    requires m <= |d|
    ensures LexIncreasing(PairsBefore(d, m))
    decreases m
  {
    if m > 0 {
      var last: nat := m - 1;
      PairsBeforeIncreasing(d, last);
      PairsBeforeBounds(d, last);
      RowPairsIncreasing(d, last, |d[last]|);
      RowPairsBounds(d, last, |d[last]|);
      LexIncreasingAppend(PairsBefore(d, last), RowPairs(d, last, |d[last]|));
    }
  }

  /** The parameters for one projection, threshold and blocking-key combination: one per
      useId value. */
  function UseIdBlock(projection: Option<Expr>, threshold: real, keys: seq<seq<string>>, useIds: seq<bool>): seq<Parameters>
  {
    if useIds == [] then []
    else UseIdBlock(projection, threshold, keys, useIds[..|useIds| - 1]) + [Parameters(threshold, projection, useIds[|useIds| - 1], keys)]
  }

  /** The parameters for one projection and threshold: one block per blocking-key combination. */
  function KeysBlock(projection: Option<Expr>, threshold: real, combined: seq<seq<seq<string>>>, useIds: seq<bool>): seq<Parameters>
  {
    if combined == [] then []
    else KeysBlock(projection, threshold, combined[..|combined| - 1], useIds) + UseIdBlock(projection, threshold, combined[|combined| - 1], useIds)
  }

  /** The parameters for one projection: one block per threshold. */
  function ThresholdBlock(projection: Option<Expr>, thresholds: seq<real>, combined: seq<seq<seq<string>>>, useIds: seq<bool>): seq<Parameters>
  {
    if thresholds == [] then []
    else ThresholdBlock(projection, thresholds[..|thresholds| - 1], combined, useIds) + KeysBlock(projection, thresholds[|thresholds| - 1], combined, useIds)
  }

  /** All parameters: one block per projection. */
  function Grid(projections: seq<Option<Expr>>, thresholds: seq<real>, combined: seq<seq<seq<string>>>, useIds: seq<bool>): seq<Parameters>
  {
    if projections == [] then []
    else Grid(projections[..|projections| - 1], thresholds, combined, useIds) + ThresholdBlock(projections[|projections| - 1], thresholds, combined, useIds)
  }

  /** The projections under test: none, and the aggregative projection. */
  function Projections(): seq<Option<Expr>>
  {
    [None, Some(AggregativeProjection())]
  }

  /** getParameters: every combination of projection, threshold, blocking keys and useId,
      in that nesting order. */
  method GetParameters(combinedBlockingKeys: seq<seq<seq<string>>>) returns (parameters: seq<Parameters>)
    ensures parameters == Grid(Projections(), [0.0, 0.5, 1.0], combinedBlockingKeys, [false, true])
  {
    parameters := CombineAll(Projections(), [0.0, 0.5, 1.0], combinedBlockingKeys, [false, true]);
  }

  /** The outermost loop of getParameters, over the projections. */
  method CombineAll(projections: seq<Option<Expr>>, thresholds: seq<real>, combined: seq<seq<seq<string>>>, useIds: seq<bool>)
    returns (parameters: seq<Parameters>)
    ensures parameters == Grid(projections, thresholds, combined, useIds)
  {
    parameters := [];
    for p := 0 to |projections|
      invariant parameters == Grid(projections[..p], thresholds, combined, useIds)
    {
      var block := CombineThresholds(projections[p], thresholds, combined, useIds);
      assert projections[..p + 1][..p] == projections[..p];
      parameters := parameters + block;
    }
    assert projections[..|projections|] == projections;
  }

  /** The loop over the thresholds, for one projection. */
  method CombineThresholds(projection: Option<Expr>, thresholds: seq<real>, combined: seq<seq<seq<string>>>, useIds: seq<bool>)
    returns (block: seq<Parameters>)
    ensures block == ThresholdBlock(projection, thresholds, combined, useIds)
  {
    block := [];
    for t := 0 to |thresholds|
      invariant block == ThresholdBlock(projection, thresholds[..t], combined, useIds)
    {
      var keysBlock := CombineKeys(projection, thresholds[t], combined, useIds);
      assert thresholds[..t + 1][..t] == thresholds[..t];
      block := block + keysBlock;
    }
    assert thresholds[..|thresholds|] == thresholds;
  }

  /** The loop over the blocking-key combinations, for one projection and threshold. */
  method CombineKeys(projection: Option<Expr>, threshold: real, combined: seq<seq<seq<string>>>, useIds: seq<bool>)
    returns (block: seq<Parameters>)
    ensures block == KeysBlock(projection, threshold, combined, useIds)
  {
    block := [];
    for b := 0 to |combined|
      invariant block == KeysBlock(projection, threshold, combined[..b], useIds)
    {
      var useIdBlock := CombineUseIds(projection, threshold, combined[b], useIds);
      assert combined[..b + 1][..b] == combined[..b];
      block := block + useIdBlock;
    }
    assert combined[..|combined|] == combined;
  }

  /** The innermost loop, over the useId values. */
  method CombineUseIds(projection: Option<Expr>, threshold: real, keys: seq<seq<string>>, useIds: seq<bool>)
    returns (block: seq<Parameters>)
    ensures block == UseIdBlock(projection, threshold, keys, useIds)
  {
    block := [];
    for u := 0 to |useIds|
      invariant block == UseIdBlock(projection, threshold, keys, useIds[..u])
    {
      assert useIds[..u + 1][..u] == useIds[..u];
      block := block + [Parameters(threshold, projection, useIds[u], keys)];
    }
    assert useIds[..|useIds|] == useIds;
  }

  /** The size of k blocks of length len, counted block by block. */
  function Times(k: nat, len: nat): nat
  {
    if k == 0 then 0 else Times(k - 1, len) + len
  }

  /** Counting k blocks of length len gives k * len. */
  lemma {:induction false} TimesIsProduct(k: nat, len: nat)
    ensures Times(k, len) == k * len
    decreases k
  {
    if k > 0 {
      TimesIsProduct(k - 1, len);
      assert (k - 1) * len + len == k * len;
    }
  }

  /** A useId block has one entry per useId value. */
  lemma {:induction false} UseIdBlockLength(projection: Option<Expr>, threshold: real, keys: seq<seq<string>>, useIds: seq<bool>)
    ensures |UseIdBlock(projection, threshold, keys, useIds)| == |useIds|
    decreases |useIds|
  {
    if useIds != [] {
      UseIdBlockLength(projection, threshold, keys, useIds[..|useIds| - 1]);
    }
  }

  /** A keys block has |combined| blocks of |useIds| entries. */
  lemma {:induction false} KeysBlockLength(projection: Option<Expr>, threshold: real, combined: seq<seq<seq<string>>>, useIds: seq<bool>)
    ensures |KeysBlock(projection, threshold, combined, useIds)| == Times(|combined|, |useIds|)
    decreases |combined|
  {
    if combined != [] {
      KeysBlockLength(projection, threshold, combined[..|combined| - 1], useIds);
      UseIdBlockLength(projection, threshold, combined[|combined| - 1], useIds);
    }
  }

  /** A threshold block has |thresholds| keys blocks. */
  lemma {:induction false} ThresholdBlockLength(projection: Option<Expr>, thresholds: seq<real>, combined: seq<seq<seq<string>>>, useIds: seq<bool>)
    ensures |ThresholdBlock(projection, thresholds, combined, useIds)| == Times(|thresholds|, Times(|combined|, |useIds|))
    decreases |thresholds|
  {
    if thresholds != [] {
      ThresholdBlockLength(projection, thresholds[..|thresholds| - 1], combined, useIds);
      KeysBlockLength(projection, thresholds[|thresholds| - 1], combined, useIds);
    }
  }

  /** The grid has |projections| threshold blocks. */
  lemma {:induction false} GridLength(projections: seq<Option<Expr>>, thresholds: seq<real>, combined: seq<seq<seq<string>>>, useIds: seq<bool>)
    ensures |Grid(projections, thresholds, combined, useIds)| == Times(|projections|, Times(|thresholds|, Times(|combined|, |useIds|)))
    decreases |projections|
  {
    if projections != [] {
      GridLength(projections[..|projections| - 1], thresholds, combined, useIds);
      ThresholdBlockLength(projections[|projections| - 1], thresholds, combined, useIds);
    }
  }

  /** A useId block holds exactly the combinations with its projection, threshold and
      blocking keys and one of the useId values. */
  lemma {:induction false} UseIdBlockMembers(projection: Option<Expr>, threshold: real, keys: seq<seq<string>>, useIds: seq<bool>, x: Parameters)
    ensures x in UseIdBlock(projection, threshold, keys, useIds)
        <==> x.projection == projection && x.threshold == threshold && x.blockingKeys == keys && x.useId in useIds
    decreases |useIds|
  {
    if useIds != [] {
      var init := useIds[..|useIds| - 1];
      assert useIds == init + [useIds[|useIds| - 1]];
      UseIdBlockMembers(projection, threshold, keys, init, x);
    }
  }

  /** A keys block holds exactly the combinations with its projection and threshold, one
      of the blocking-key combinations and one of the useId values. */
  lemma {:induction false} KeysBlockMembers(projection: Option<Expr>, threshold: real, combined: seq<seq<seq<string>>>, useIds: seq<bool>, x: Parameters)
    ensures x in KeysBlock(projection, threshold, combined, useIds)
        <==> x.projection == projection && x.threshold == threshold && x.blockingKeys in combined && x.useId in useIds
    decreases |combined|
  {
    if combined != [] {
      var init := combined[..|combined| - 1];
      assert combined == init + [combined[|combined| - 1]];
      KeysBlockMembers(projection, threshold, init, useIds, x);
      UseIdBlockMembers(projection, threshold, combined[|combined| - 1], useIds, x);
    }
  }

  /** A threshold block holds exactly the combinations with its projection, one of the
      thresholds, one of the blocking-key combinations and one of the useId values. */
  lemma {:induction false} ThresholdBlockMembers(projection: Option<Expr>, thresholds: seq<real>, combined: seq<seq<seq<string>>>, useIds: seq<bool>, x: Parameters)
    ensures x in ThresholdBlock(projection, thresholds, combined, useIds)
        <==> x.projection == projection && x.threshold in thresholds && x.blockingKeys in combined && x.useId in useIds
    decreases |thresholds|
  {
    if thresholds != [] {
      var init := thresholds[..|thresholds| - 1];
      assert thresholds == init + [thresholds[|thresholds| - 1]];
      ThresholdBlockMembers(projection, init, combined, useIds, x);
      KeysBlockMembers(projection, thresholds[|thresholds| - 1], combined, useIds, x);
    }
  }

  /** The grid holds exactly the combinations of one projection, one threshold, one
      blocking-key combination and one useId value. */
  lemma {:induction false} GridMembers(projections: seq<Option<Expr>>, thresholds: seq<real>, combined: seq<seq<seq<string>>>, useIds: seq<bool>, x: Parameters)
    ensures x in Grid(projections, thresholds, combined, useIds)
        <==> x.projection in projections && x.threshold in thresholds && x.blockingKeys in combined && x.useId in useIds
    decreases |projections|
  {
    if projections != [] {
      var init := projections[..|projections| - 1];
      assert projections == init + [projections[|projections| - 1]];
      GridMembers(init, thresholds, combined, useIds, x);
      ThresholdBlockMembers(projections[|projections| - 1], thresholds, combined, useIds, x);
    }
  }

  /** getParameters yields 2 * 3 * |combinedBlockingKeys| * 2 entries, and a combination
      is among them exactly when its projection is none or the aggregative projection, its
      threshold is 0, 0.5 or 1, its blocking keys are one of the given combinations, and
      its useId is either value. */
  lemma GetParametersCombinations(combined: seq<seq<seq<string>>>, x: Parameters)
    ensures |Grid(Projections(), [0.0, 0.5, 1.0], combined, [false, true])| == 12 * |combined|
    ensures x in Grid(Projections(), [0.0, 0.5, 1.0], combined, [false, true])
        <==> && (x.projection == None || x.projection == Some(AggregativeProjection()))
             && (x.threshold == 0.0 || x.threshold == 0.5 || x.threshold == 1.0)
             && x.blockingKeys in combined
  {
    var projections := Projections();
    var thresholds := [0.0, 0.5, 1.0];
    var useIds := [false, true];
    assert |Grid(projections, thresholds, combined, useIds)| == 12 * |combined| by {
      GridLength(projections, thresholds, combined, useIds);
      TimesIsProduct(|combined|, 2);
      TimesIsProduct(3, |combined| * 2);
      TimesIsProduct(2, 3 * (|combined| * 2));
    }
    GridMembers(projections, thresholds, combined, useIds, x);
    assert x.useId in useIds;
  }
}
