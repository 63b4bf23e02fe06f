/** The merge-distinct fusion rule: the distinct non-null values of a duplicate cluster,
    as an array ordered by the structural JSON comparator. The comparator itself
    (JsonNodeComparator) is a parameter. */
module MergeDistinctRule {
  import opened Json

  /** Every element is less than every later one. */
  predicate StrictlySorted(s: seq<Json>, cmp: Comparator)
  {
    forall i, j :: 0 <= i < j < |s| ==> cmp(s[i], s[j]) < 0
  }

  /** Some element of `s` compares equal to `v`. */
  predicate HasEquivalent(s: seq<Json>, v: Json, cmp: Comparator)
  {
    exists i :: 0 <= i < |s| && cmp(v, s[i]) == 0
  }

  /** TreeSet.add on the set's elements in comparator order: a value that compares equal
      to an element already present is dropped and the present element kept; otherwise
      the value goes in before the first greater element. */
  function Insert(s: seq<Json>, v: Json, cmp: Comparator): seq<Json>
    decreases |s|
  {
    if s == [] then [v]
    else if cmp(v, s[0]) < 0 then [v] + s
    else if cmp(v, s[0]) == 0 then s
    else [s[0]] + Insert(s[1..], v, cmp)
  }

  /** The elements of the set after inserting each non-null value of `values`, in order. */
  function MergeDistinct(values: seq<Json>, cmp: Comparator): seq<Json>
  {
    if values == [] then []
    else
      var distinct := MergeDistinct(values[..|values| - 1], cmp);
      var value := values[|values| - 1];
      if value != JNull then Insert(distinct, value, cmp) else distinct
  }

  /** fuse(values, weights, context): drops the explicit null node, collects the rest in a
      TreeSet ordered by `cmp` and returns the set's elements as an array. The weights do
      not influence the result. */
  method Fuse(values: seq<Json>, weights: seq<real>, cmp: Comparator) returns (fused: Json)
    ensures fused == JArr(MergeDistinct(values, cmp))
  {
    var distinctValues: seq<Json> := [];
    for i := 0 to |values|
      invariant distinctValues == MergeDistinct(values[..i], cmp)
    {
      assert values[..i + 1][..i] == values[..i];
      var value := values[i];
      if value != JNull {
        distinctValues := Insert(distinctValues, value, cmp);
      }
    }
    assert values[..|values|] == values;
    fused := JArr(distinctValues);
  }

  /** Inserting keeps every present element, adds nothing but `v`, and grows the set by
      at most one. */
  lemma {:induction false} InsertMembers(s: seq<Json>, v: Json, cmp: Comparator)
    ensures forall x :: x in Insert(s, v, cmp) ==> x in s || x == v
    ensures forall x :: x in s ==> x in Insert(s, v, cmp)
    ensures |Insert(s, v, cmp)| <= |s| + 1
    decreases |s|
  {
    if s != [] && cmp(v, s[0]) > 0 {
      InsertMembers(s[1..], v, cmp);
      assert s == [s[0]] + s[1..];
    }
  }

  /** A value below every element of a strictly sorted sequence can go in front of it. */
  lemma SortedCons(x: Json, s: seq<Json>, cmp: Comparator)
    requires StrictlySorted(s, cmp)
    requires forall j :: 0 <= j < |s| ==> cmp(x, s[j]) < 0
    ensures StrictlySorted([x] + s, cmp)
  {
    var r := [x] + s;
    forall i, j | 0 <= i < j < |r| ensures cmp(r[i], r[j]) < 0 {
      if i > 0 {
        assert r[i] == s[i - 1] && r[j] == s[j - 1];
      }
    }
  }

  /** A value below the first element of a strictly sorted sequence is below all of them. */
  lemma BelowFirst(v: Json, s: seq<Json>, cmp: Comparator)
    requires IsComparator(cmp) && StrictlySorted(s, cmp)
    requires s != [] && cmp(v, s[0]) < 0
    ensures forall j :: 0 <= j < |s| ==> cmp(v, s[j]) < 0
  {
    forall j | 0 < j < |s| ensures cmp(v, s[j]) < 0 {
      assert cmp(s[0], s[j]) < 0;
    }
  }

  /** Inserting into a strictly sorted sequence keeps it strictly sorted. */
  lemma {:induction false} InsertSorted(s: seq<Json>, v: Json, cmp: Comparator)
    requires IsComparator(cmp) && StrictlySorted(s, cmp)
    ensures StrictlySorted(Insert(s, v, cmp), cmp)
    decreases |s|
  {
    if s == [] {
    } else if cmp(v, s[0]) < 0 {
      BelowFirst(v, s, cmp);
      SortedCons(v, s, cmp);
    } else if cmp(v, s[0]) == 0 {
    } else {
      InsertSorted(s[1..], v, cmp);
      InsertMembers(s[1..], v, cmp);
      assert cmp(s[0], v) < 0;
      InsertBelowHead(s, v, cmp);
      SortedCons(s[0], Insert(s[1..], v, cmp), cmp);
    }
  }

  /** The head of a strictly sorted sequence stays below everything left after inserting
      a value greater than it into the tail. */
  lemma InsertBelowHead(s: seq<Json>, v: Json, cmp: Comparator)
    requires s != [] && StrictlySorted(s, cmp) && cmp(s[0], v) < 0
    requires forall x :: x in Insert(s[1..], v, cmp) ==> x in s[1..] || x == v
    ensures forall j :: 0 <= j < |Insert(s[1..], v, cmp)| ==> cmp(s[0], Insert(s[1..], v, cmp)[j]) < 0
  {
    var rest := Insert(s[1..], v, cmp);
    forall j | 0 <= j < |rest| ensures cmp(s[0], rest[j]) < 0 {
      assert rest[j] in rest;
      if rest[j] != v {
        var k :| 0 <= k < |s[1..]| && s[1..][k] == rest[j];
        assert s[1 + k] == rest[j];
      }
    }
  }

  /** After inserting `v` the set holds an element that compares equal to `v`: either `v`
      itself or the element that made it a duplicate. */
  lemma {:induction false} InsertHasEquivalent(s: seq<Json>, v: Json, cmp: Comparator)
    requires IsComparator(cmp)
    ensures HasEquivalent(Insert(s, v, cmp), v, cmp)
    decreases |s|
  {
    var r := Insert(s, v, cmp);
    if s == [] || cmp(v, s[0]) < 0 {
      assert r[0] == v;
      assert cmp(v, r[0]) == 0;
    } else if cmp(v, s[0]) == 0 {
      assert cmp(v, r[0]) == 0;
    } else {
      var rest := Insert(s[1..], v, cmp);
      InsertHasEquivalent(s[1..], v, cmp);
      var k :| 0 <= k < |rest| && cmp(v, rest[k]) == 0;
      assert r[k + 1] == rest[k];
    }
  }

  /** The result holds only values taken from the input, and never the null node. */
  lemma {:induction false} MergeDistinctElements(values: seq<Json>, cmp: Comparator)
    ensures forall x :: x in MergeDistinct(values, cmp) ==> x in values && x != JNull
    ensures JNull !in MergeDistinct(values, cmp)
    decreases |values|
  {
    if values != [] {
      var init := values[..|values| - 1];
      MergeDistinctElements(init, cmp);
      InsertMembers(MergeDistinct(init, cmp), values[|values| - 1], cmp);
      assert values == init + [values[|values| - 1]];
    }
  }

  /** The result is no longer than the input. */
  lemma {:induction false} MergeDistinctLength(values: seq<Json>, cmp: Comparator)
    ensures |MergeDistinct(values, cmp)| <= |values|
    decreases |values|
  {
    if values != [] {
      var init := values[..|values| - 1];
      MergeDistinctLength(init, cmp);
      InsertMembers(MergeDistinct(init, cmp), values[|values| - 1], cmp);
    }
  }

  /** An empty or all-null cluster fuses to the empty array rather than an error. */
  lemma {:induction false} MergeDistinctAllNull(values: seq<Json>, cmp: Comparator)
    requires forall i :: 0 <= i < |values| ==> values[i] == JNull
    ensures MergeDistinct(values, cmp) == []
    decreases |values|
  {
    if values != [] {
      MergeDistinctAllNull(values[..|values| - 1], cmp);
    }
  }

  /** The result is strictly increasing under the comparator, so no two of its elements
      compare equal. */
  lemma {:induction false} MergeDistinctSorted(values: seq<Json>, cmp: Comparator)
    requires IsComparator(cmp)
    ensures StrictlySorted(MergeDistinct(values, cmp), cmp)
    decreases |values|
  {
    if values != [] {
      var init := values[..|values| - 1];
      MergeDistinctSorted(init, cmp);
      if values[|values| - 1] != JNull {
        InsertSorted(MergeDistinct(init, cmp), values[|values| - 1], cmp);
      }
    }
  }

  /** Every non-null input value has an element of the result that compares equal to it. */
  lemma {:induction false} MergeDistinctCovers(values: seq<Json>, cmp: Comparator)
    requires IsComparator(cmp)
    ensures forall v :: v in values && v != JNull ==> HasEquivalent(MergeDistinct(values, cmp), v, cmp)
    decreases |values|
  {
    if values != [] {
      var init := values[..|values| - 1];
      var last := values[|values| - 1];
      var prev := MergeDistinct(init, cmp);
      MergeDistinctCovers(init, cmp);
      var r := MergeDistinct(values, cmp);
      if last != JNull {
        InsertHasEquivalent(prev, last, cmp);
        InsertMembers(prev, last, cmp);
      }
      forall v | v in values && v != JNull && v != last ensures HasEquivalent(r, v, cmp) {
        assert v in init by { assert values == init + [last]; }
        var k :| 0 <= k < |prev| && cmp(v, prev[k]) == 0;
        assert prev[k] in r;
        var m :| 0 <= m < |r| && r[m] == prev[k];
      }
    }
  }

  /** Inserting a value greater than every element appends it. */
  lemma {:induction false} InsertGreatest(s: seq<Json>, v: Json, cmp: Comparator)
    requires IsComparator(cmp)
    requires forall i :: 0 <= i < |s| ==> cmp(s[i], v) < 0
    ensures Insert(s, v, cmp) == s + [v]
    decreases |s|
  {
    if s != [] {
      assert cmp(v, s[0]) > 0;
      InsertGreatest(s[1..], v, cmp);
      assert s == [s[0]] + s[1..];
    }
  }

  /** Fusing a strictly sorted, null-free array again gives the same array. */
  lemma {:induction false} MergeDistinctOfSorted(s: seq<Json>, cmp: Comparator)
    requires IsComparator(cmp) && StrictlySorted(s, cmp) && JNull !in s
    ensures MergeDistinct(s, cmp) == s
    decreases |s|
  {
    if s != [] {
      var init := s[..|s| - 1];
      var last := s[|s| - 1];
      MergeDistinctOfSorted(init, cmp);
      assert last in s;
      InsertGreatest(init, last, cmp);
      assert init + [last] == s;
    }
  }

  /** The rule is idempotent: fusing a fused array again returns it unchanged. */
  lemma MergeDistinctIdempotent(values: seq<Json>, cmp: Comparator)
    requires IsComparator(cmp)
    ensures MergeDistinct(MergeDistinct(values, cmp), cmp) == MergeDistinct(values, cmp)
  {
    MergeDistinctSorted(values, cmp);
    MergeDistinctElements(values, cmp);
    MergeDistinctOfSorted(MergeDistinct(values, cmp), cmp);
  }

  /** Two non-empty strictly sorted sequences with the same elements share their least
      element. */
  lemma SortedSameHead(s: seq<Json>, t: seq<Json>, cmp: Comparator)
    requires IsComparator(cmp) && StrictlySorted(s, cmp) && StrictlySorted(t, cmp)
    requires s != [] && t != []
    requires forall x :: x in s <==> x in t
    ensures s[0] == t[0]
  {
    assert s[0] in s && t[0] in t;
    var j :| 0 <= j < |t| && t[j] == s[0];
    var i :| 0 <= i < |s| && s[i] == t[0];
    if s[0] != t[0] {
      assert false;
    }
  }

  /** With equal heads and the same elements, the tails of two strictly sorted sequences
      have the same elements, because the head does not occur again in either tail. */
  lemma SameTailElements(s: seq<Json>, t: seq<Json>, cmp: Comparator)
    requires s != [] && t != [] && s[0] == t[0]
    requires cmp(s[0], s[0]) == 0
    requires StrictlySorted(s, cmp) && StrictlySorted(t, cmp)
    requires forall x :: x in s <==> x in t
    ensures forall x :: x in s[1..] <==> x in t[1..]
  {
    forall x ensures x in s[1..] ==> x in t[1..] {
      if x in s[1..] {
        var k :| 0 <= k < |s[1..]| && s[1..][k] == x;
        assert cmp(s[0], s[k + 1]) < 0;
        assert x in s;
        var j :| 0 <= j < |t| && t[j] == x;
        assert t[1..][j - 1] == x;
      }
    }
    forall x ensures x in t[1..] ==> x in s[1..] {
      if x in t[1..] {
        var k :| 0 <= k < |t[1..]| && t[1..][k] == x;
        assert cmp(t[0], t[k + 1]) < 0;
        assert x in t;
        var i :| 0 <= i < |s| && s[i] == x;
        assert s[1..][i - 1] == x;
      }
    }
  }

  /** A non-empty sequence has a member. */
  lemma NonEmptyHasMember(s: seq<Json>)
    ensures s != [] <==> exists x :: x in s
  {
    if s != [] {
      assert s[0] in s;
    }
  }

  /** Two strictly sorted sequences with the same elements are the same sequence. */
  lemma {:induction false} SortedUnique(s: seq<Json>, t: seq<Json>, cmp: Comparator)
    requires IsComparator(cmp) && StrictlySorted(s, cmp) && StrictlySorted(t, cmp)
    requires forall x :: x in s <==> x in t
    ensures s == t
    decreases |s|
  {
    if s == [] || t == [] {
      NonEmptyHasMember(s);
      NonEmptyHasMember(t);
    } else {
      SortedSameHead(s, t, cmp);
      assert cmp(s[0], s[0]) == 0;
      SameTailElements(s, t, cmp);
      SortedUnique(s[1..], t[1..], cmp);
      assert s == [s[0]] + s[1..];
      assert t == [t[0]] + t[1..];
    }
  }

  /** Order independence: when the comparator's 0 means equality, the result depends only
      on the set of non-null input values, so any permutation or duplication of the
      input fuses to the same array. */
  lemma MergeDistinctOrderIndependent(values1: seq<Json>, values2: seq<Json>, cmp: Comparator)
    requires IsComparator(cmp) && ZeroIsEquality(cmp)
    requires forall v :: (v in values1 && v != JNull) <==> (v in values2 && v != JNull)
    ensures MergeDistinct(values1, cmp) == MergeDistinct(values2, cmp)
  {
    var r1 := MergeDistinct(values1, cmp);
    var r2 := MergeDistinct(values2, cmp);
    MergeDistinctSorted(values1, cmp);
    MergeDistinctSorted(values2, cmp);
    MergeDistinctCovers(values1, cmp);
    MergeDistinctCovers(values2, cmp);
    MergeDistinctElements(values1, cmp);
    MergeDistinctElements(values2, cmp);
    forall x ensures x in r1 <==> x in r2 {
      if x in r1 {
        assert HasEquivalent(r2, x, cmp);
        var k :| 0 <= k < |r2| && cmp(x, r2[k]) == 0;
      }
      if x in r2 {
        assert HasEquivalent(r1, x, cmp);
        var k :| 0 <= k < |r1| && cmp(x, r1[k]) == 0;
      }
    }
    SortedUnique(r1, r2, cmp);
  }

  /** The cluster {A, null, A, B} fuses like {B, A}: to A and B once each, in comparator
      order. */
  lemma MergeDistinctExample(a: Json, b: Json, cmp: Comparator)
    requires IsComparator(cmp) && ZeroIsEquality(cmp)
    requires a != JNull && b != JNull && a != b
    ensures MergeDistinct([a, JNull, a, b], cmp) == MergeDistinct([b, a], cmp)
    ensures MergeDistinct([b, a], cmp) == if cmp(a, b) < 0 then [a, b] else [b, a]
  {
    MergeDistinctOrderIndependent([a, JNull, a, b], [b, a], cmp);
    assert [b][..0] == [];
    assert MergeDistinct([b], cmp) == [b];
    assert [b, a][..1] == [b];
    assert MergeDistinct([b, a], cmp) == Insert([b], a, cmp);
    assert cmp(a, b) != 0;
  }
}
