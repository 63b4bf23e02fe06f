/** StreamArrayNode: a read-only JSON array view of an iterator of nodes, either consumed
    once while it is read (Iterating) or copied into a list up front (Resettable). */
module StreamArrayNodes {
  import opened Wrappers
  import opened Json

  /** A java.util.Iterator over JSON nodes, given by the nodes it has not returned yet. */
  class NodeIterator {
    var remaining: seq<Json>

    constructor (nodes: seq<Json>)
      ensures remaining == nodes
    {
      remaining := nodes;
    }

    /** hasNext(). */
    predicate HasNext()
      reads this
    {
      remaining != []
    }

    /** next(): the first remaining node, which is consumed; past the end,
        NoSuchElementException and nothing changes. */
    method Next() returns (r: Result<Json>)
      modifies this
      ensures old(remaining) == [] ==> r == Failure(NoSuchElement) && remaining == []
      ensures old(remaining) != [] ==> r == Success(old(remaining)[0]) && remaining == old(remaining)[1..]
    {
      if remaining == [] {
        return Failure(NoSuchElement);
      }
      r := Success(remaining[0]);
      remaining := remaining[1..];
    }
  }

  /** The view that reads the iterator as it goes. `currentIndex` counts the calls of
      next() so far, starting at -1, and `currentNode` is the node the last skip step read
      (Java null, here None, before any). */
  class Iterating {
    const nodes: NodeIterator
    var currentNode: Option<Json>
    var currentIndex: int

    constructor (nodes: NodeIterator)
      ensures this.nodes == nodes && currentNode == None && currentIndex == -1
    {
      this.nodes := nodes;
      currentNode := None;
      currentIndex := -1;
    }

    /** assumeBeginning(): no element has been read through the view yet. */
    predicate Untouched()
      reads this
    {
      currentIndex == -1
    }

    /** hasNext(): whether the underlying iterator has a node left. */
    function HasNext(): (has: bool)
      reads this, nodes
      ensures has <==> nodes.remaining != []
    {
      nodes.HasNext()
    }

    /** isEmpty(): whether the underlying iterator has nothing left, regardless of what
        was already read. */
    function IsEmpty(): (empty: bool)
      reads this, nodes
      ensures empty <==> nodes.remaining == []
    {
      !nodes.HasNext()
    }

    /** size(): the size of a stream is not known, so it is reported as 0. */
    function Size(): (size: int)
      ensures size == 0
    {
      0
    }

    /** isResettable(). */
    function IsResettable(): (resettable: bool)
      ensures !resettable
    {
      false
    }

    /** next(): counts the step, then takes the next node of the iterator; the count goes
        up even when the iterator is exhausted and throws. */
    method Next() returns (r: Result<Json>)
      modifies this, nodes
      ensures currentIndex == old(currentIndex) + 1 && currentNode == old(currentNode)
      ensures old(nodes.remaining) == [] ==> r == Failure(NoSuchElement) && nodes.remaining == []
      ensures old(nodes.remaining) != [] ==> r == Success(old(nodes.remaining)[0]) && nodes.remaining == old(nodes.remaining)[1..]
    {
      currentIndex := currentIndex + 1;
      r := nodes.Next();
    }

    /** skip(count): reads `count` nodes (none for a count below one), keeping the last one
        read in `currentNode`; stops with the iterator's exception when it runs out. */
    method Skip(count: int) returns (outcome: Outcome)
      modifies this, nodes
      ensures var n := if count < 0 then 0 else count;
              var rest := old(nodes.remaining);
              && (n <= |rest| ==>
                    && outcome == Pass
                    && currentIndex == old(currentIndex) + n
                    && nodes.remaining == rest[n..]
                    && currentNode == (if n == 0 then old(currentNode) else Some(rest[n - 1])))
              && (n > |rest| ==>
                    && outcome == Fail(NoSuchElement)
                    && currentIndex == old(currentIndex) + |rest| + 1
                    && nodes.remaining == []
                    && currentNode == (if rest == [] then old(currentNode) else Some(rest[|rest| - 1])))
    {
      ghost var rest := nodes.remaining;
      outcome := Pass;
      var index := 0;
      while index < count
        invariant 0 <= index <= |rest| && index <= (if count < 0 then 0 else count)
        invariant currentIndex == old(currentIndex) + index
        invariant nodes.remaining == rest[index..]
        invariant currentNode == (if index == 0 then old(currentNode) else Some(rest[index - 1]))
        decreases count - index
      {
        var r := Next();
        if r.Failure? {
          return Fail(r.error);
        }
        currentNode := Some(r.value);
        index := index + 1;
      }
    }

    /** get(index): refuses to go back; otherwise reads forward until the node at position
        `index` (counting from the first node of the stream as 0) is the current one, and
        returns it. Asking for the current position again returns the current node without
        reading. */
    method Get(index: int) returns (r: Result<Option<Json>>)
      modifies this, nodes
      ensures index < old(currentIndex) ==> r == Failure(IllegalArgument) && unchanged(this, nodes)
      ensures index == old(currentIndex) ==>
                && r == Success(old(currentNode))
                && currentIndex == old(currentIndex) && currentNode == old(currentNode)
                && nodes.remaining == old(nodes.remaining)
      ensures var rest := old(nodes.remaining);
              var ahead := index - old(currentIndex);
              && (0 < ahead <= |rest| ==>
                    && r == Success(Some(rest[ahead - 1]))
                    && currentIndex == index
                    && currentNode == Some(rest[ahead - 1])
                    && nodes.remaining == rest[ahead..])
              && (ahead > |rest| ==>
                    && r == Failure(NoSuchElement)
                    && currentIndex == old(currentIndex) + |rest| + 1
                    && currentNode == (if rest == [] then old(currentNode) else Some(rest[|rest| - 1]))
                    && nodes.remaining == [])
    {
      if index < currentIndex {
        return Failure(IllegalArgument);
      }
      ghost var rest := nodes.remaining;
      assert rest[0..] == rest;
      var outcome := Skip(index - currentIndex);
      if outcome.Fail? {
        return Failure(outcome.error);
      }
      r := Success(currentNode);
    }

    /** remove() of the Iterator interface: always UnsupportedOperationException. */
    method Remove() returns (outcome: Outcome)
      ensures outcome == Fail(UnsupportedOperation)
    {
      outcome := Fail(UnsupportedOperation);
    }

    /** ensureResettable(): a Resettable view holding what is left in the iterator. */
    method EnsureResettable() returns (view: Resettable)
      modifies nodes
      ensures fresh(view) && view.nodes == old(nodes.remaining) && nodes.remaining == []
    {
      view := new Resettable(nodes);
    }

    /** toArray(): only on an untouched view (IllegalStateException otherwise); copies
        what is left in the iterator through a Resettable view, consuming the iterator
        while the view stays untouched. */
    method ToArray() returns (r: Result<array<Json>>)
      modifies nodes
      ensures !old(Untouched()) ==> r == Failure(IllegalState) && unchanged(nodes)
      ensures old(Untouched()) ==> r.Success? && fresh(r.value) && r.value[..] == old(nodes.remaining) && nodes.remaining == []
    {
      if !Untouched() {
        return Failure(IllegalState);
      }
      var view := new Resettable(nodes);
      var items := view.ToArray();
      r := Success(items);
    }
  }

  /** The view that copies all nodes of the iterator into a list when it is built. */
  class Resettable {
    var nodes: seq<Json>

    /** Drains the iterator into the list, in order. */
    constructor (it: NodeIterator)
      modifies it
      ensures nodes == old(it.remaining) && it.remaining == []
    {
      var cached := [];
      while it.HasNext()
        invariant cached + it.remaining == old(it.remaining)
        decreases |it.remaining|
      {
        var r := it.Next();
        cached := cached + [r.value];
      }
      nodes := cached;
    }

    /** get(index): List.get, IndexOutOfBoundsException outside the list. */
    function Get(index: int): (r: Result<Json>)
      reads this
      ensures r.Success? <==> 0 <= index < |nodes|
      ensures r.Success? ==> r.value == nodes[index]
      ensures r.Failure? ==> r.error == IndexOutOfBounds
    {
      if 0 <= index < |nodes| then Success(nodes[index]) else Failure(IndexOutOfBounds)
    }

    /** size(): the number of nodes. */
    function Size(): (size: nat)
      reads this
      ensures size == |nodes|
    {
      |nodes|
    }

    /** isEmpty(). */
    function IsEmpty(): (empty: bool)
      reads this
      ensures empty <==> Size() == 0
    {
      nodes == []
    }

    /** isResettable(). */
    function IsResettable(): (resettable: bool)
      ensures resettable
    {
      true
    }

    /** toArray(): a new array with the nodes in order. */
    method ToArray() returns (items: array<Json>)
      ensures fresh(items) && items[..] == nodes
    {
      items := new Json[|nodes|](i requires 0 <= i < |nodes| reads this => nodes[i]);
    }
  }

  /** A StreamArrayNode is one of the two views. */
  datatype StreamArrayNode = IteratingNode(iterating: Iterating) | ResettableNode(resettable: Resettable)

  /** valueOf(nodes, resettable): a Resettable view that has drained the iterator, or an
      untouched Iterating view over it. */
  method ValueOf(nodes: NodeIterator, resettable: bool) returns (node: StreamArrayNode)
    modifies nodes
    ensures node.ResettableNode? <==> resettable
    ensures resettable ==> fresh(node.resettable) && node.resettable.nodes == old(nodes.remaining) && nodes.remaining == []
    ensures !resettable ==> && fresh(node.iterating) && node.iterating.nodes == nodes && node.iterating.Untouched()
                            && node.iterating.currentNode == None && nodes.remaining == old(nodes.remaining)
  {
    if resettable {
      var view := new Resettable(nodes);
      return ResettableNode(view);
    }
    var view := new Iterating(nodes);
    node := IteratingNode(view);
  }

  /** path(fieldName): a stream array has no fields, so always the missing node. */
  function PathField(node: StreamArrayNode, fieldName: string): (r: Json)
    ensures r == JMissing
  {
    JMissing
  }

  /** removeAll(): the views are read-only, so always UnsupportedOperationException. */
  method RemoveAll(node: StreamArrayNode) returns (outcome: Outcome)
    ensures outcome == Fail(UnsupportedOperation)
  {
    outcome := Fail(UnsupportedOperation);
  }
}
