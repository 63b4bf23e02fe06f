/** Sopremo evaluation expressions: the expression kinds the record-linkage tests build,
    and their evaluation on a JSON node. Similarity measures, the numeric-difference
    score and built-in functions are external; they are supplied as `Externals`. */
module Expressions {
  import opened Json

  /** The similarity measures of the simmetrics library used by the tests. */
  datatype Measure = Levenshtein | JaccardSimilarity

  /** Built-in functions used as path fragments. */
  datatype Builtin = Average

  datatype Expr =
    | SameValue                                             // returns its input node
    | InputSelection(index: nat)                            // element `index` of the input array
    | ObjectAccess(field: string)                           // field `field` of the input object
    | ArrayCreation(elements: seq<Expr>)                    // an array of the elements' values
    | ObjectCreation(mappings: seq<Mapping>)                // an object of the mappings' values
    | PathExpr(fragments: seq<Expr>)                        // the value of a PathExpression
    | WritablePathExpr(fragments: seq<Expr>)                // the value of a PathExpression.Writable
    | SimmetricFunction(measure: Measure, left: Expr, right: Expr)
    | NumericDifference(left: Expr, right: Expr, maxDiff: real)
    | BuiltinCall(builtin: Builtin)                         // BuiltinFunctions.X.asExpression()

  /** One `addMapping(target, expression)` of an ObjectCreation. */
  datatype Mapping = Mapping(target: string, expression: Expr)

  /** The external, uninterpreted parts of evaluation. */
  datatype Externals = Externals(
    similarity: (Measure, Json, Json) -> real,
    numericDifference: (Json, Json, real) -> real,
    builtin: (Builtin, Json) -> Json)

  /** EvaluationExpression.evaluate(node, context). */
  function Eval(e: Expr, node: Json, ext: Externals): Json
    decreases e, 1
  {
    match e
    case SameValue => node
    case InputSelection(i) => if node.JArr? && i < |node.items| then node.items[i] else JMissing
    case ObjectAccess(f) => if node.JObj? && f in node.fields then node.fields[f] else JMissing
    case ArrayCreation(es) => JArr(EvalAll(es, node, ext))
    case ObjectCreation(ms) => JObj(EvalMappings(ms, node, ext))
    case PathExpr(fs) => EvalPath(fs, node, ext)
    case WritablePathExpr(fs) => EvalPath(fs, node, ext)
    case SimmetricFunction(m, l, r) => JNum(ext.similarity(m, Eval(l, node, ext), Eval(r, node, ext)))
    case NumericDifference(l, r, d) => JNum(ext.numericDifference(Eval(l, node, ext), Eval(r, node, ext), d))
    case BuiltinCall(b) => ext.builtin(b, node)
  }

  /** The values of a list of expressions, in order. */
  function EvalAll(es: seq<Expr>, node: Json, ext: Externals): (vs: seq<Json>)
    ensures |vs| == |es|
    ensures forall i :: 0 <= i < |es| ==> vs[i] == Eval(es[i], node, ext)
    decreases es, 0
  {
    if es == [] then [] else [Eval(es[0], node, ext)] + EvalAll(es[1..], node, ext)
  }

  /** The fields of an ObjectCreation; a later mapping of the same target wins. */
  function EvalMappings(ms: seq<Mapping>, node: Json, ext: Externals): map<string, Json>
    decreases ms, 0
  {
    if ms == [] then map[]
    else EvalMappings(ms[..|ms| - 1], node, ext)[ms[|ms| - 1].target := Eval(ms[|ms| - 1].expression, node, ext)]
  }

  /** PathExpression.evaluate: each fragment is evaluated on the result of the previous one. */
  function EvalPath(fs: seq<Expr>, node: Json, ext: Externals): Json
    decreases fs, 0
  {
    if fs == [] then node else EvalPath(fs[1..], Eval(fs[0], node, ext), ext)
  }

  /** Evaluating a concatenated path is evaluating the second part on the first part's result. */
  lemma {:induction false} EvalPathAppend(a: seq<Expr>, b: seq<Expr>, node: Json, ext: Externals)
    ensures EvalPath(a + b, node, ext) == EvalPath(b, EvalPath(a, node, ext), ext)
    decreases |a|
  {
    if a != [] {
      assert (a + b)[1..] == a[1..] + b;
      EvalPathAppend(a[1..], b, Eval(a[0], node, ext), ext);
    } else {
      assert a + b == b;
    }
  }
}
