/** util/list.c: the kernel's doubly linked list, node by node. */
module LinkedList {

  class Node<T(0)> {
    var prev: Node?<T>
    var next: Node?<T>
    var val: T

    constructor (val: T)
      ensures this.val == val && prev == null && next == null
    {
      this.val, prev, next := val, null, null;
    }
  }

  /** Distinct nodes, each the next of the one before and the previous of the one after. */
  ghost predicate Linked<T(0)>(nodes: seq<Node<T>>, vals: seq<T>)
    reads nodes
  {
    && |vals| == |nodes|
    && (forall i, j :: 0 <= i < j < |nodes| ==> nodes[i] != nodes[j])
    && (forall i :: 0 <= i < |nodes| ==> nodes[i].val == vals[i])
    && (forall i, j :: 0 <= i && j == i + 1 && j < |nodes| ==> nodes[i].next == nodes[j] && nodes[j].prev == nodes[i])
    && (nodes != [] ==> nodes[0].prev == null && nodes[|nodes| - 1].next == null)
  }

  /** All links are in place except those of node idx, whose neighbours point at each other. */
  ghost predicate Bridged<T(0)>(s: seq<Node<T>>, vals: seq<T>, idx: nat)
    reads s
  {
    && |vals| == |s| && idx < |s|
    && (forall i, j :: 0 <= i < j < |s| ==> s[i] != s[j])
    && (forall i :: 0 <= i < |s| ==> s[i].val == vals[i])
    && (forall i, j :: 0 <= i && j == i + 1 && j < |s| && i != idx && j != idx ==>
         s[i].next == s[j] && s[j].prev == s[i])
    && (0 < idx < |s| - 1 ==> s[idx - 1].next == s[idx + 1] && s[idx + 1].prev == s[idx - 1])
    && (idx > 0 ==> s[0].prev == null) && (idx == 0 && |s| > 1 ==> s[1].prev == null)
    && (idx < |s| - 1 ==> s[|s| - 1].next == null) && (idx == |s| - 1 && |s| > 1 ==> s[|s| - 2].next == null)
  }

  lemma Closed<T(0)>(s: seq<Node<T>>, vals: seq<T>, idx: nat, t: seq<Node<T>>)
    requires Bridged(s, vals, idx) && t == s[..idx] + s[idx + 1..]
    ensures Linked(t, vals[..idx] + vals[idx + 1..])
  {
    forall i, j | 0 <= i && j == i + 1 && j < |t| ensures t[i].next == t[j] && t[j].prev == t[i] {
      if j < idx {
        assert t[i] == s[i] && t[j] == s[j];
      } else if j == idx {
        assert t[i] == s[idx - 1] && t[j] == s[idx + 1];
      } else {
        assert t[i] == s[i + 1] && t[j] == s[j + 1];
      }
    }
  }

  class List<T(0)> {
    var head: Node?<T>
    var tail: Node?<T>
    var cnt: nat
    ghost var nodes: seq<Node<T>>
    ghost var vals: seq<T>  // the values from front to back

    /** Neighbours point at each other; head and tail are null exactly when there is no node. */
    ghost predicate Valid()
      reads this, nodes
    {
      && cnt == |nodes|
      && head == (if nodes == [] then null else nodes[0])
      && tail == (if nodes == [] then null else nodes[|nodes| - 1])
      && Linked(nodes, vals)
    }

    /** list_create */
    constructor ()
      ensures Valid() && vals == [] && nodes == []
    {
      head, tail, cnt, nodes, vals := null, null, 0, [], [];
    }

    /** list_push_back */
    method PushBack(val: T) returns (node: Node<T>)
      requires Valid()
      modifies this, nodes
      ensures Valid() && fresh(node) && nodes == old(nodes) + [node] && vals == old(vals) + [val]
    {
      node := new Node(val);
      if head == null && tail == null {
        head, tail := node, node;
      } else {
        assert tail == nodes[|nodes| - 1];
        node.prev := tail;
        tail.next := node;
        tail := node;
      }
      cnt := cnt + 1;
      nodes, vals := nodes + [node], vals + [val];
    }

    /** list_push_front */
    method PushFront(val: T) returns (node: Node<T>)
      requires Valid()
      modifies this, nodes
      ensures Valid() && fresh(node) && nodes == [node] + old(nodes) && vals == [val] + old(vals)
    {
      if head == null && tail == null {
        node := PushBack(val);
        return;
      }
      assert head == nodes[0];
      node := new Node(val);
      node.next := head;
      head.prev := node;
      head := node;
      cnt := cnt + 1;
      nodes, vals := [node] + nodes, [val] + vals;
    }

    /** list_pop_front; nothing happens on an empty list. */
    method PopFront() returns (val: T)
      requires Valid()
      modifies this, nodes
      ensures Valid()
      ensures old(nodes) == [] ==> vals == [] && nodes == []
      ensures old(nodes) != [] ==> val == old(vals)[0] && vals == old(vals)[1..] && nodes == old(nodes)[1..]
    {
      if cnt == 0 {
        val := *;
        return;
      }
      assert head == nodes[0] && (cnt > 1 ==> head.next == nodes[1]);
      var node := head;
      head := head.next;
      if head != null {
        head.prev := null;
      } else {
        tail := null;
      }
      cnt := cnt - 1;
      val := node.val;
      nodes, vals := nodes[1..], vals[1..];
    }

    /** list_pop_back. The list stays well-formed exactly when it did not have one element: removing
        the only node leaves head pointing at it. */
    method PopBack() returns (val: T)
      requires Valid()
      modifies this, nodes
      ensures old(nodes) == [] ==> vals == [] && nodes == []
      ensures old(nodes) != [] ==>
        && val == old(vals)[|old(nodes)| - 1] && nodes == old(nodes)[..|old(nodes)| - 1]
        && vals == old(vals)[..|old(nodes)| - 1] && cnt == |old(nodes)| - 1
      ensures Valid() <==> |old(nodes)| != 1
      ensures |old(nodes)| == 1 ==> head == old(nodes)[0] && tail == null && cnt == 0
    {
      if cnt == 0 {
        val := *;
        return;
      }
      assert tail == nodes[cnt - 1] && (cnt > 1 ==> tail.prev == nodes[cnt - 2] && nodes[cnt - 2] in nodes);
      var node := tail;
      tail := node.prev;
      if tail != null {
        tail.next := null;
      }
      cnt := cnt - 1;
      val := node.val;
      nodes, vals := nodes[..|nodes| - 1], vals[..|nodes| - 1];
    }

    /** list_get; null beyond the end. */
    method Get(idx: nat) returns (node: Node?<T>)
      requires Valid()
      ensures node == if idx < |nodes| then nodes[idx] else null
    {
      if idx >= cnt {
        return null;
      }
      var i := 0;
      node := head;
      while node != null
        invariant 0 <= i <= idx && node == nodes[i]
        decreases |nodes| - i
      {
        if i == idx {
          return;
        }
        assert node.next == nodes[i + 1];
        i := i + 1;
        node := node.next;
      }
    }

    /** The two neighbours of a node are linked to each other. */
    method Unlink(node: Node<T>, ghost idx: nat)
      requires Valid() && idx < |nodes| && node == nodes[idx]
      modifies nodes
      ensures Linked(nodes[..idx] + nodes[idx + 1..], vals[..idx] + vals[idx + 1..])
      ensures node.prev == (if idx == 0 then null else nodes[idx - 1])
      ensures node.next == (if idx + 1 == |nodes| then null else nodes[idx + 1])
    {
      assert idx > 0 ==> node.prev == nodes[idx - 1] && nodes[idx - 1] in nodes;
      assert idx + 1 < |nodes| ==> node.next == nodes[idx + 1] && nodes[idx + 1] in nodes;
      if node.prev != null {
        node.prev.next := node.next;
      }
      if node.next != null {
        node.next.prev := node.prev;
      }
      Closed(nodes, vals, idx, nodes[..idx] + nodes[idx + 1..]);
    }

    /** The end of list_remove: head and tail step off the node that was unlinked. */
    method Drop(node: Node<T>, ghost idx: nat)
      requires idx < |nodes| == |vals| && node == nodes[idx] && cnt == |nodes|
      requires head == nodes[0] && tail == nodes[|nodes| - 1]
      requires node == head <==> idx == 0
      requires node == tail <==> idx == |nodes| - 1
      requires node.prev == (if idx == 0 then null else nodes[idx - 1])
      requires node.next == (if idx + 1 == |nodes| then null else nodes[idx + 1])
      requires Linked(nodes[..idx] + nodes[idx + 1..], vals[..idx] + vals[idx + 1..])
      modifies this
      ensures Valid() && nodes == old(nodes)[..idx] + old(nodes)[idx + 1..]
      ensures vals == old(vals)[..idx] + old(vals)[idx + 1..]
    {
      if node == head {
        head := node.next;
      }
      if node == tail {
        tail := node.prev;
      }
      cnt := cnt - 1;
      nodes, vals := nodes[..idx] + nodes[idx + 1..], vals[..idx] + vals[idx + 1..];
    }

    /** list_remove of an existing element. */
    method Remove(idx: nat)
      requires Valid() && idx < |nodes|
      modifies this, nodes
      ensures Valid() && nodes == old(nodes)[..idx] + old(nodes)[idx + 1..]
      ensures vals == old(vals)[..idx] + old(vals)[idx + 1..]
    {
      var node := Get(idx);
      assert node == head <==> idx == 0;
      assert node == tail <==> idx == |nodes| - 1;
      Unlink(node, idx);
      Drop(node, idx);
    }
  }
}
