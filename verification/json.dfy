/** The JSON tree values that Sopremo operators pass around (Jackson's JsonNode). */
module Json {

  datatype Json =
    | JNull                           // the explicit null node, NullNode.getInstance()
    | JMissing                        // MissingNode: the result of a path that does not resolve
    | JBool(b: bool)
    | JNum(n: real)                   // numeric nodes; doubles and ints alike
    | JStr(s: string)
    | JArr(items: seq<Json>)          // ArrayNode
    | JObj(fields: map<string, Json>) // ObjectNode

  /** JsonNode.getDoubleValue(): the number of a numeric node, 0.0 for every other node. */
  function DoubleValue(j: Json): real
  {
    if j.JNum? then j.n else 0.0
  }

  /** A two-element array node, as JsonUtil.asArray(left, right) builds for a record pair. */
  function Pair(left: Json, right: Json): Json
  {
    JArr([left, right])
  }

  /** JsonNodeComparator.compare, whose implementation is not part of this model:
      negative, zero or positive. */
  type Comparator = (Json, Json) -> int

  /** Swapping the arguments flips the sign. */
  ghost predicate Antisymmetric(cmp: Comparator)
  {
    forall a, b :: cmp(a, b) < 0 <==> cmp(b, a) > 0
  }

  /** The part of the java.util.Comparator contract the fusion lemmas need: the sign
      flips when the arguments are swapped, and "less than" is transitive. It does not
      ask that comparing equal be transitive, so the order need not be total. */
  ghost predicate IsComparator(cmp: Comparator)
  {
    && Antisymmetric(cmp)
    && (forall a, b, c :: cmp(a, b) < 0 && cmp(b, c) < 0 ==> cmp(a, c) < 0)
  }

  /** The comparator's 0 means equality of the values. */
  ghost predicate ZeroIsEquality(cmp: Comparator)
  {
    forall a, b :: cmp(a, b) == 0 <==> a == b
  }
}
