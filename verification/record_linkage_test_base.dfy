/** The shared set-up of the intra-source record-linkage tests: the canonical ordered pair,
    the test plan with its nine-record fixture, the averaged similarity expression and the
    aggregating duplicate projection. */
module RecordLinkageTestBase {
  import opened Wrappers
  import opened Json
  import opened Expressions

  /** The configuration of a RecordLinkage operator that the tests set and read: the
      blocking keys of its DisjunctPartitioning, the similarity expression, the threshold,
      the identifier projection of each input and the optional duplicate projection.
      The operator's execution is not part of this model. */
  class RecordLinkage {
    const leftBlockingKeys: seq<Expr>
    const rightBlockingKeys: seq<Expr>
    const similarityFunction: Expr
    const threshold: real
    var idProjections: map<nat, Expr>
    var duplicateProjection: Option<Expr>

    constructor (leftBlockingKeys: seq<Expr>, rightBlockingKeys: seq<Expr>, similarityFunction: Expr, threshold: real)
      ensures this.leftBlockingKeys == leftBlockingKeys && this.rightBlockingKeys == rightBlockingKeys
      ensures this.similarityFunction == similarityFunction && this.threshold == threshold
      ensures idProjections == map[] && duplicateProjection == None
    {
      this.leftBlockingKeys := leftBlockingKeys;
      this.rightBlockingKeys := rightBlockingKeys;
      this.similarityFunction := similarityFunction;
      this.threshold := threshold;
      idProjections := map[];
      duplicateProjection := None;
    }

    /** getIdProjection(index): the identity (the whole record) unless one was set. */
    function IdProjection(index: nat): Expr
      reads this
    {
      if index in idProjections then idProjections[index] else SameValue
    }

    /** setIdProjection(index, projection). */
    method SetIdProjection(index: nat, projection: Expr)
      modifies this
      ensures idProjections == old(idProjections)[index := projection]
      ensures duplicateProjection == old(duplicateProjection)
    {
      idProjections := idProjections[index := projection];
    }

    /** setDuplicateProjection(projection). */
    method SetDuplicateProjection(projection: Expr)
      modifies this
      ensures duplicateProjection == Some(projection)
      ensures idProjections == old(idProjections)
    {
      duplicateProjection := Some(projection);
    }
  }

  /** A test plan for one operator; only its first input is used by these tests. */
  class SopremoTestPlan {
    const operator: RecordLinkage
    var input: seq<Json>

    constructor (operator: RecordLinkage)
      ensures this.operator == operator && input == []
    {
      this.operator := operator;
      input := [];
    }

    /** getInput(0).add(r1).add(r2)…: the chained adds append the records in order. */
    method AddInputs(records: seq<Json>)
      modifies this
      ensures input == old(input) + records
    {
      input := input + records;
    }
  }

  /** createOrderedPair(o1, o2): the pair in comparator order, [o1, o2] when o1 compares
      less than o2 and [o2, o1] otherwise. */
  function CreateOrderedPair(o1: Json, o2: Json, cmp: Comparator): (pair: Json)
    ensures pair.JArr? && |pair.items| == 2
    ensures multiset(pair.items) == multiset{o1, o2}
    ensures cmp(o1, o2) < 0 ==> pair.items == [o1, o2]
    ensures cmp(o1, o2) >= 0 ==> pair.items == [o2, o1]
  {
    if cmp(o1, o2) < 0 then Pair(o1, o2) else Pair(o2, o1)
  }

  /** With an antisymmetric comparator the first element never compares greater than
      the second. */
  lemma OrderedPairIsOrdered(o1: Json, o2: Json, cmp: Comparator)
    requires Antisymmetric(cmp)
    ensures var pair := CreateOrderedPair(o1, o2, cmp);
            cmp(pair.items[0], pair.items[1]) <= 0
  {
    if cmp(o1, o2) >= 0 {
      assert !(cmp(o2, o1) > 0);
    }
  }

  /** The pair is canonical: for inputs that do not compare equal, the argument order
      does not matter. */
  lemma OrderedPairIsSymmetric(o1: Json, o2: Json, cmp: Comparator)
    requires Antisymmetric(cmp) && cmp(o1, o2) != 0
    ensures CreateOrderedPair(o1, o2, cmp) == CreateOrderedPair(o2, o1, cmp)
  {
    if cmp(o1, o2) < 0 {
      assert cmp(o2, o1) > 0;
    } else {
      assert cmp(o2, o1) < 0;
    }
  }

  /** The fields of every fixture record. */
  const PersonFields: set<string> := {"id", "first name", "last name", "age"}

  /** createPactJsonObject("id", id, "first name", …, "last name", …, "age", …). */
  function Person(id: int, firstName: string, lastName: string, age: int): Json
  {
    JObj(map["id" := JNum(id as real), "first name" := JStr(firstName), "last name" := JStr(lastName), "age" := JNum(age as real)])
  }

  /** The nine records every intra-source test feeds to the operator, in input order;
      each is an object with exactly the four person fields. */
  function Fixture(): (records: seq<Json>)
    ensures |records| == 9
    ensures forall i :: 0 <= i < |records| ==> records[i].JObj? && records[i].fields.Keys == PersonFields
  {
    [ Person(0, "albert", "perfect duplicate", 80),
      Person(1, "berta", "typo", 70),
      Person(2, "charles", "age inaccurate", 70),
      Person(3, "dagmar", "unmatched", 75),
      Person(4, "elma", "first nameDiffers", 60),
      Person(5, "albert", "perfect duplicate", 80),
      Person(6, "berta", "tpyo", 70),
      Person(7, "charles", "age inaccurate", 69),
      Person(8, "elmar", "first nameDiffers", 60) ]
  }

  /** createTestPlan(recordLinkage, useId, projection): a plan over the operator whose
      first input is the fixture; the identifier projection of input 0 becomes the "id"
      field iff `useId`, and the duplicate projection is set iff one is given. */
  method CreateTestPlan(recordLinkage: RecordLinkage, useId: bool, projection: Option<Expr>) returns (plan: SopremoTestPlan)
    modifies recordLinkage
    ensures fresh(plan) && plan.operator == recordLinkage && plan.input == Fixture()
    ensures recordLinkage.idProjections == if useId then old(recordLinkage.idProjections)[0 := ObjectAccess("id")] else old(recordLinkage.idProjections)
    ensures recordLinkage.duplicateProjection == if projection.Some? then projection else old(recordLinkage.duplicateProjection)
  {
    plan := new SopremoTestPlan(recordLinkage);
    if useId {
      recordLinkage.SetIdProjection(0, ObjectAccess("id"));
    }
    if projection.Some? {
      recordLinkage.SetDuplicateProjection(projection.value);
    }
    plan.AddInputs(Fixture());
  }

  /** The fixture holds nine objects whose ids are 0 to 8 in input order. */
  lemma FixtureIds()
    ensures |Fixture()| == 9
    ensures forall i :: 0 <= i < |Fixture()| ==> Fixture()[i].JObj? && "id" in Fixture()[i].fields && Fixture()[i].fields["id"] == JNum(i as real)
  {
  }

  /** Records 0 and 5 are the perfect duplicates: distinct records that agree on every
      field except "id". */
  lemma FixturePerfectDuplicates()
    ensures Fixture()[0] != Fixture()[5]
    ensures Fixture()[0].fields.Keys == Fixture()[5].fields.Keys
    ensures forall k :: k in Fixture()[0].fields && k != "id" ==> Fixture()[0].fields[k] == Fixture()[5].fields[k]
  {
    assert Fixture()[0].fields["id"] != Fixture()[5].fields["id"];
  }

  /** createPath(index, field): field `field` of element `index` of the input pair. */
  function CreatePath(index: nat, field: string): Expr
  {
    PathExpr([InputSelection(index), ObjectAccess(field)])
  }

  /** A created path reads the named field of the selected record. */
  lemma CreatePathReadsField(index: nat, field: string, records: seq<Json>, ext: Externals)
    requires index < |records|
    ensures Eval(CreatePath(index, field), JArr(records), ext) == Eval(ObjectAccess(field), records[index], ext)
  {
    var fs := [InputSelection(index), ObjectAccess(field)];
    assert fs[1..] == [ObjectAccess(field)] && fs[1..][1..] == [];
    assert Eval(InputSelection(index), JArr(records), ext) == records[index];
    calc {
      Eval(CreatePath(index, field), JArr(records), ext);
      EvalPath(fs, JArr(records), ext);
      EvalPath(fs[1..], records[index], ext);
      EvalPath(fs[1..][1..], Eval(ObjectAccess(field), records[index], ext), ext);
    }
  }

  /** The age difference of getSimilarityFunction as written: both arguments are the age
      of element 0. */
  function AgeDifferenceAsWritten(): Expr
  {
    NumericDifference(CreatePath(0, "age"), CreatePath(0, "age"), 10.0)
  }

  /** The age difference as evidently intended: the ages of elements 0 and 1. */
  function AgeDifference(): Expr
  {
    NumericDifference(CreatePath(0, "age"), CreatePath(1, "age"), 10.0)
  }

  /** getSimilarityFunction with a given age-difference metric: the AVERAGE built-in
      applied to the array of the first-name Levenshtein, last-name Jaccard and age scores. */
  function AveragedSimilarity(ageDifference: Expr): Expr
  {
    var firstNameLev := SimmetricFunction(Levenshtein, CreatePath(0, "first name"), CreatePath(1, "first name"));
    var lastNameJaccard := SimmetricFunction(JaccardSimilarity, CreatePath(0, "last name"), CreatePath(1, "last name"));
    PathExpr([ArrayCreation([firstNameLev, lastNameJaccard, ageDifference]), BuiltinCall(Average)])
  }

  /** getSimilarityFunction as written. */
  function SimilarityFunctionAsWritten(): Expr
  {
    AveragedSimilarity(AgeDifferenceAsWritten())
  }

  /** getSimilarityFunction as evidently intended. */
  function SimilarityFunction(): Expr
  {
    AveragedSimilarity(AgeDifference())
  }

  /** The value of a field of a record. */
  function FieldValue(record: Json, field: string, ext: Externals): Json
  {
    Eval(ObjectAccess(field), record, ext)
  }

  /** An averaging path: the AVERAGE built-in applied to the array of the scores. */
  lemma AverageOfScores(scores: seq<Expr>, node: Json, ext: Externals)
    ensures Eval(PathExpr([ArrayCreation(scores), BuiltinCall(Average)]), node, ext)
         == ext.builtin(Average, JArr(EvalAll(scores, node, ext)))
  {
    var fs := [ArrayCreation(scores), BuiltinCall(Average)];
    var values := Eval(ArrayCreation(scores), node, ext);
    assert fs[1..] == [BuiltinCall(Average)] && fs[1..][1..] == [];
    calc {
      EvalPath(fs, node, ext);
      EvalPath(fs[1..], values, ext);
      EvalPath(fs[1..][1..], ext.builtin(Average, values), ext);
    }
  }

  /** A similarity measure over the same field of both records of a pair. */
  lemma MeasureOfPair(m: Measure, field: string, left: Json, right: Json, ext: Externals)
    ensures Eval(SimmetricFunction(m, CreatePath(0, field), CreatePath(1, field)), Pair(left, right), ext)
         == JNum(ext.similarity(m, FieldValue(left, field, ext), FieldValue(right, field, ext)))
  {
    CreatePathReadsField(0, field, [left, right], ext);
    CreatePathReadsField(1, field, [left, right], ext);
  }

  /** Evaluating the averaged similarity on a pair is averaging exactly three scores, in
      order: first-name Levenshtein, last-name Jaccard, then the given age metric. */
  lemma AveragedSimilarityOfPair(ageDifference: Expr, left: Json, right: Json, ext: Externals)
    ensures Eval(AveragedSimilarity(ageDifference), Pair(left, right), ext)
         == ext.builtin(Average, JArr([
              JNum(ext.similarity(Levenshtein, FieldValue(left, "first name", ext), FieldValue(right, "first name", ext))),
              JNum(ext.similarity(JaccardSimilarity, FieldValue(left, "last name", ext), FieldValue(right, "last name", ext))),
              Eval(ageDifference, Pair(left, right), ext)]))
  {
    var pair := Pair(left, right);
    var es := [SimmetricFunction(Levenshtein, CreatePath(0, "first name"), CreatePath(1, "first name")),
               SimmetricFunction(JaccardSimilarity, CreatePath(0, "last name"), CreatePath(1, "last name")),
               ageDifference];
    assert AveragedSimilarity(ageDifference) == PathExpr([ArrayCreation(es), BuiltinCall(Average)]);
    AverageOfScores(es, pair, ext);
    MeasureOfPair(Levenshtein, "first name", left, right, ext);
    MeasureOfPair(JaccardSimilarity, "last name", left, right, ext);
    assert EvalAll(es, pair, ext) == [Eval(es[0], pair, ext), Eval(es[1], pair, ext), Eval(es[2], pair, ext)];
  }

  /** The corrected age metric compares the first record's age with the second's. */
  lemma AgeDifferenceOfPair(left: Json, right: Json, ext: Externals)
    ensures Eval(AgeDifference(), Pair(left, right), ext)
         == JNum(ext.numericDifference(FieldValue(left, "age", ext), FieldValue(right, "age", ext), 10.0))
  {
    CreatePathReadsField(0, "age", [left, right], ext);
    CreatePathReadsField(1, "age", [left, right], ext);
  }

  /** The corrected similarity compares the first record's age with the second's. */
  lemma SimilarityComparesBothAges(left: Json, right: Json, ext: Externals)
    ensures Eval(SimilarityFunction(), Pair(left, right), ext)
         == ext.builtin(Average, JArr([
              JNum(ext.similarity(Levenshtein, FieldValue(left, "first name", ext), FieldValue(right, "first name", ext))),
              JNum(ext.similarity(JaccardSimilarity, FieldValue(left, "last name", ext), FieldValue(right, "last name", ext))),
              JNum(ext.numericDifference(FieldValue(left, "age", ext), FieldValue(right, "age", ext), 10.0))]))
  {
    AveragedSimilarityOfPair(AgeDifference(), left, right, ext);
    AgeDifferenceOfPair(left, right, ext);
  }

  /** The age metric as written reads the first record's age twice. */
  lemma AgeDifferenceAsWrittenOfPair(left: Json, right: Json, ext: Externals)
    ensures Eval(AgeDifferenceAsWritten(), Pair(left, right), ext)
         == JNum(ext.numericDifference(FieldValue(left, "age", ext), FieldValue(left, "age", ext), 10.0))
  {
    CreatePathReadsField(0, "age", [left, right], ext);
  }

  /** The similarity as written, on a pair: the average of the first-name Levenshtein,
      the last-name Jaccard and the difference of the first record's age with itself. */
  lemma SimilarityAsWrittenOfPair(left: Json, right: Json, ext: Externals)
    ensures Eval(SimilarityFunctionAsWritten(), Pair(left, right), ext)
         == ext.builtin(Average, JArr([
              JNum(ext.similarity(Levenshtein, FieldValue(left, "first name", ext), FieldValue(right, "first name", ext))),
              JNum(ext.similarity(JaccardSimilarity, FieldValue(left, "last name", ext), FieldValue(right, "last name", ext))),
              JNum(ext.numericDifference(FieldValue(left, "age", ext), FieldValue(left, "age", ext), 10.0))]))
  {
    AveragedSimilarityOfPair(AgeDifferenceAsWritten(), left, right, ext);
    AgeDifferenceAsWrittenOfPair(left, right, ext);
  }

  /** As written, the age metric compares the first record's age with itself, so the
      similarity does not depend on the second record's age: two right-hand records that
      agree on their names score the same. */
  lemma AsWrittenSimilarityIgnoresSecondAge(left: Json, right1: Json, right2: Json, ext: Externals)
    requires FieldValue(right1, "first name", ext) == FieldValue(right2, "first name", ext)
    requires FieldValue(right1, "last name", ext) == FieldValue(right2, "last name", ext)
    ensures Eval(SimilarityFunctionAsWritten(), Pair(left, right1), ext) == Eval(SimilarityFunctionAsWritten(), Pair(left, right2), ext)
    ensures Eval(AgeDifferenceAsWritten(), Pair(left, right1), ext)
         == JNum(ext.numericDifference(FieldValue(left, "age", ext), FieldValue(left, "age", ext), 10.0))
  {
    SimilarityAsWrittenOfPair(left, right1, ext);
    SimilarityAsWrittenOfPair(left, right2, ext);
    AgeDifferenceAsWrittenOfPair(left, right1, ext);
  }

  /** getAggregativeProjection: an object with "names" holding both first names and
      "ids" holding both ids. */
  function AggregativeProjection(): Expr
  {
    ObjectCreation([
      Mapping("names", ArrayCreation([CreatePath(0, "first name"), CreatePath(1, "first name")])),
      Mapping("ids", ArrayCreation([CreatePath(0, "id"), CreatePath(1, "id")]))])
  }

  /** The aggregative projection of a pair. */
  lemma AggregativeProjectionOfPair(left: Json, right: Json, ext: Externals)
    ensures Eval(AggregativeProjection(), Pair(left, right), ext)
         == JObj(map["names" := JArr([FieldValue(left, "first name", ext), FieldValue(right, "first name", ext)]),
                     "ids" := JArr([FieldValue(left, "id", ext), FieldValue(right, "id", ext)])])
  {
    CreatePathReadsField(0, "first name", [left, right], ext);
    CreatePathReadsField(1, "first name", [left, right], ext);
    CreatePathReadsField(0, "id", [left, right], ext);
    CreatePathReadsField(1, "id", [left, right], ext);
    var pair := Pair(left, right);
    var ms := AggregativeProjection().mappings;
    assert ms[..1][..0] == [];
    assert ms[..|ms| - 1] == ms[..1];
    var names := Eval(ms[0].expression, pair, ext);
    var ids := Eval(ms[1].expression, pair, ext);
    assert names == JArr([FieldValue(left, "first name", ext), FieldValue(right, "first name", ext)]) by {
      assert EvalAll(ms[0].expression.elements, pair, ext) == [FieldValue(left, "first name", ext), FieldValue(right, "first name", ext)];
    }
    assert ids == JArr([FieldValue(left, "id", ext), FieldValue(right, "id", ext)]) by {
      assert EvalAll(ms[1].expression.elements, pair, ext) == [FieldValue(left, "id", ext), FieldValue(right, "id", ext)];
    }
    assert EvalMappings(ms[..1], pair, ext) == map["names" := names];
    assert EvalMappings(ms, pair, ext) == map["names" := names, "ids" := ids];
  }
}
