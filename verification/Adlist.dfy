/** The doubly linked list, with nodes in the heap. */
module Adlist {

  class Node<V> {
    var prev: Node?<V>
    var next: Node?<V>
    const value: V

    constructor (v: V)
      ensures value == v && prev == null && next == null
    {
      value, prev, next := v, null, null;
    }
  }

  /** A node of a sequence, or null outside it. */
  function At<V>(nodes: seq<Node<V>>, i: int): Node?<V> {
    if 0 <= i < |nodes| then nodes[i] else null
  }

  ghost predicate Distinct<V>(nodes: seq<Node<V>>) {
    forall i, j :: 0 <= i < j < |nodes| ==> nodes[i] != nodes[j]
  }

  function Without<V>(nodes: seq<Node<V>>, i: nat): seq<Node<V>>
    requires i < |nodes|
  {
    nodes[..i] + nodes[i + 1..]
  }

  function With<V>(nodes: seq<Node<V>>, i: nat, node: Node<V>): seq<Node<V>>
    requires i <= |nodes|
  {
    nodes[..i] + [node] + nodes[i..]
  }

  class List<V> {
    var head: Node?<V>
    var tail: Node?<V>
    var len: nat
    ghost var nodes: seq<Node<V>>

    ghost predicate Linked(i: nat)
      requires i < |nodes|
      reads this, nodes
    {
      nodes[i].prev == At(nodes, i - 1) && nodes[i].next == At(nodes, i + 1)
    }

    /** The links are those of the sequence of nodes. */
    ghost predicate Valid()
      reads this, nodes
    {
      && Distinct(nodes) && len == |nodes| && head == At(nodes, 0) && tail == At(nodes, |nodes| - 1)
      && forall i :: 0 <= i < |nodes| ==> Linked(i)
    }

    constructor ()
      ensures Valid() && nodes == []
    {
      head, tail, len, nodes := null, null, 0, [];
    }

    /** listAddNodeTail. */
    method AddNodeTail(value: V) returns (node: Node<V>)
      requires Valid()
      modifies this, nodes
      ensures Valid() && fresh(node) && node.value == value && nodes == old(nodes) + [node]
    {
      node := new Node(value);
      ghost var before, n := nodes, |nodes|;
      assert n > 0 ==> Linked(n - 1);
      if len == 0 {
        head, tail := node, node;
      } else {
        node.prev := tail;
        tail.next := node;
        tail := node;
      }
      len := len + 1;
      nodes := nodes + [node];
      forall i | 0 <= i < |nodes| ensures Linked(i) {
        if i < n { assert old(Linked(i)) && nodes[i] == before[i]; }
      }
    }

    /** listDelNode, for the node at position `i`. */
    method DelNode(node: Node<V>, ghost i: nat)
      requires Valid() && i < |nodes| && nodes[i] == node
      modifies this, nodes
      ensures Valid() && nodes == old(nodes)[..i] + old(nodes)[i + 1..]
    {
      ghost var before := nodes;
      assert Linked(i);
      if node.prev != null {
        node.prev.next := node.next;
      } else {
        head := node.next;
      }
      if node.next != null {
        node.next.prev := node.prev;
      } else {
        tail := node.prev;
      }
      len := len - 1;
      nodes := Without(nodes, i);
      forall k | 0 <= k < |nodes| ensures Linked(k) {
        var o := if k < i then k else k + 1;
        assert old(Linked(o)) && nodes[k] == before[o];
      }
    }

    /** listAddNodeHead. */
    method AddNodeHead(value: V) returns (node: Node<V>)
      requires Valid()
      modifies this, nodes
      ensures Valid() && fresh(node) && node.value == value && nodes == [node] + old(nodes)
    {
      node := new Node(value);
      ghost var before := nodes;
      assert |nodes| > 0 ==> Linked(0);
      if len == 0 {
        head, tail := node, node;
      } else {
        node.next := head;
        head.prev := node;
        head := node;
      }
      len := len + 1;
      nodes := [node] + nodes;
      forall i | 0 <= i < |nodes| ensures Linked(i) {
        if i > 0 { assert old(Linked(i - 1)) && nodes[i] == before[i - 1]; }
      }
    }

    /** The end of listInsertNode: the neighbours are linked to the new node. */
    method LinkNeighbours(node: Node<V>, ghost j: nat)
      requires j <= |nodes| && Distinct(nodes) && len == |nodes| && node !in nodes
      requires node.prev == At(nodes, j - 1) && node.next == At(nodes, j)
      requires head == (if j == 0 then node else At(nodes, 0)) &&
               tail == (if j == |nodes| then node else At(nodes, |nodes| - 1))
      requires forall i :: 0 <= i < |nodes| ==> Linked(i)
      modifies this, nodes
      ensures Valid() && nodes == With(old(nodes), j, node)
    {
      ghost var before := nodes;
      if node.prev != null {
        node.prev.next := node;
      }
      if node.next != null {
        node.next.prev := node;
      }
      len := len + 1;
      nodes := With(nodes, j, node);
      forall k | 0 <= k < |nodes| ensures Linked(k) {
        if k != j {
          var o := if k < j then k else k - 1;
          assert old(Linked(o)) && nodes[k] == before[o];
        }
      }
    }

    /** listInsertNode, beside the node at position `i`. */
    method InsertNode(oldNode: Node<V>, value: V, after: bool, ghost i: nat) returns (node: Node<V>)
      requires Valid() && i < |nodes| && nodes[i] == oldNode
      modifies this, nodes
      ensures Valid() && fresh(node) && node.value == value
      ensures var j := if after then i + 1 else i; nodes == old(nodes)[..j] + [node] + old(nodes)[j..]
    {
      node := new Node(value);
      assert Linked(i);
      if after {
        node.prev := oldNode;
        node.next := oldNode.next;
        if tail == oldNode {
          tail := node;
        }
      } else {
        node.next := oldNode;
        node.prev := oldNode.prev;
        if head == oldNode {
          head := node;
        }
      }
      assert forall k :: 0 <= k < |nodes| ==> old(Linked(k)) ==> Linked(k);
      LinkNeighbours(node, if after then i + 1 else i);
    }

    /** listRotate: the tail becomes the head. */
    method Rotate()
      requires Valid()
      modifies this, nodes
      ensures Valid()
      ensures nodes == if |old(nodes)| <= 1 then old(nodes)
                       else [old(nodes)[|old(nodes)| - 1]] + old(nodes)[..|old(nodes)| - 1]
    {
      var last := tail;
      if len <= 1 {
        return;
      }
      ghost var before, n := nodes, |nodes|;
      assert Linked(n - 1) && Linked(0);
      tail := last.prev;
      tail.next := null;
      head.prev := last;
      last.prev := null;
      last.next := head;
      head := last;
      nodes := [nodes[n - 1]] + nodes[..n - 1];
      forall k | 0 <= k < |nodes| ensures Linked(k) {
        if k > 0 { assert old(Linked(k - 1)) && nodes[k] == before[k - 1]; }
      }
    }

    /** listIndex: from the head, or with a negative index from the tail. */
    method Index(index: int) returns (n: Node?<V>)
      requires Valid()
      ensures var i := if index < 0 then |nodes| + index else index;
        n == if 0 <= i < |nodes| then nodes[i] else null
    {
      if index < 0 {
        var left := -index - 1;
        n := tail;
        ghost var i := |nodes| - 1;
        while left > 0 && n != null
          invariant left >= 0 && n == At(nodes, i) && (i < 0 ==> i == -1)
          invariant i - left == |nodes| + index || (i == -1 && |nodes| + index < 0)
          invariant i < |nodes|
          decreases left
        {
          assert Linked(i);
          n, left, i := n.prev, left - 1, i - 1;
        }
      } else {
        var left := index;
        n := head;
        ghost var i := 0;
        while left > 0 && n != null
          invariant left >= 0 && n == At(nodes, i) && 0 <= i <= |nodes|
          invariant i + left == index || (i == |nodes| && index >= |nodes|)
          decreases left
        {
          assert Linked(i);
          n, left, i := n.next, left - 1, i + 1;
        }
      }
    }
  }

  /** listIter. */
  class ListIter<V> {
    var next: Node?<V>
    var forward: bool

    /** listGetIterator, listRewind and listRewindTail. */
    constructor (l: List<V>, fromHead: bool)
      requires l.Valid()
      ensures forward == fromHead && next == At(l.nodes, if fromHead then 0 else |l.nodes| - 1)
    {
      next := if fromHead then l.head else l.tail;
      forward := fromHead;
    }

    /** listNext, when the iterator is at position `i`: it moves on by one. */
    method Next(l: List<V>, ghost i: int) returns (current: Node?<V>)
      requires l.Valid() && next == At(l.nodes, i)
      modifies this
      ensures current == (if 0 <= i < |l.nodes| then l.nodes[i] else null) && forward == old(forward)
      ensures current != null ==> next == At(l.nodes, if forward then i + 1 else i - 1)
      ensures current == null ==> next == null
    {
      current := next;
      if current != null {
        assert l.Linked(i);
        if forward {
          next := current.next;
        } else {
          next := current.prev;
        }
      }
    }
  }

  /** The node that was returned may be deleted: the iterator is then at the position where the
      rest of the list is, in either direction. */
  lemma DeleteReturned<V>(nodes: seq<Node<V>>, i: nat)
    requires i < |nodes|
    ensures At(nodes, i + 1) == At(Without(nodes, i), i) && nodes[i + 1..] == Without(nodes, i)[i..]
    ensures At(nodes, i - 1) == At(Without(nodes, i), i - 1) && nodes[..i] == Without(nodes, i)[..i]
  {}
}
