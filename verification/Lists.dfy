/**
  lib/kernel/list.c.  A doubly linked list between two sentinel nodes; the ghost
  field elems is the sequence it stands for.
 */
module Lists {
  import opened Outcomes

  class Node {
    var prev: Node?
    var next: Node?

    constructor () {
      prev, next := null, null;
    }
  }

  class List {
    const head: Node
    const tail: Node
    ghost var elems: seq<Node>

    /** The nodes from sentinel to sentinel. */
    ghost function At(i: nat): Node
      requires i < |elems| + 2
      reads this`elems
    {
      if i == 0 then head else if i <= |elems| then elems[i - 1] else tail
    }

    ghost predicate Has(node: Node)
      reads this`elems
    {
      node == head || node == tail || node in elems
    }

    ghost function Nodes(): set<Node>
      reads this`elems
    {
      {head, tail} + set n <- elems
    }

    /** Neighbours point at each other, and the sentinels end the chain. */
    ghost predicate Valid()
      reads this, head, tail, elems
    {
      && head != tail && head !in elems && tail !in elems && Distinct(elems)
      && head.prev == null && tail.next == null
      && (forall i :: 0 <= i <= |elems| ==> At(i).next == At(i + 1))
      && (forall i :: 0 < i <= |elems| + 1 ==> At(i).prev == At(i - 1))
    }

    /** list_init */
    constructor ()
      ensures Valid() && elems == [] && fresh(head) && fresh(tail)
    {
      head := new Node();
      tail := new Node();
      elems := [];
      new;
      head.prev := null;
      head.next := tail;
      tail.prev := head;
      tail.next := null;
    }

    /** list_insert_before, where before is the k-th element or the tail. */
    method InsertBefore(before: Node, node: Node, ghost k: nat)
      requires Valid() && k <= |elems| && before == At(k + 1) && !Has(node)
      modifies this`elems, At(k)`next, before`prev, node
      ensures Valid() && elems == old(elems[..k] + [node] + elems[k..])
    {
      assert before.prev == At(k);
      before.prev.next := node;
      node.prev := before.prev;
      node.next := before;
      before.prev := node;
      elems := elems[..k] + [node] + elems[k..];
      forall i | 0 <= i <= |elems|
        ensures At(i).next == At(i + 1) && At(i + 1).prev == At(i)
      {
        if i < k {
          assert old(At(i).next == At(i + 1) && At(i + 1).prev == At(i));
        } else if k + 1 < i {
          assert old(At(i - 1).next == At(i) && At(i).prev == At(i - 1));
        }
      }
    }

    /** list_push */
    method Push(node: Node)
      requires Valid() && !Has(node)
      modifies this`elems, head`next, At(1)`prev, node
      ensures Valid() && elems == [node] + old(elems)
    {
      assert At(0).next == At(1);
      InsertBefore(head.next, node, 0);
    }

    /** list_append */
    method Append(node: Node)
      requires Valid() && !Has(node)
      modifies this`elems, At(|elems|)`next, tail`prev, node
      ensures Valid() && elems == old(elems) + [node]
    {
      InsertBefore(tail, node, |elems|);
    }

    /** list_remove: the node keeps its stale links, its neighbours close the gap. */
    method Remove(node: Node, ghost k: nat)
      requires Valid() && k < |elems| && elems[k] == node
      modifies this`elems, At(k)`next, At(k + 2)`prev
      ensures Valid() && elems == old(elems[..k] + elems[k + 1..])
      ensures !Has(node) && node.prev == old(node.prev) && node.next == old(node.next)
    {
      assert At(k + 1) == node && node.prev == At(k) && node.next == At(k + 2);
      node.prev.next := node.next;
      node.next.prev := node.prev;
      elems := elems[..k] + elems[k + 1..];
      forall i | 0 <= i <= |elems|
        ensures At(i).next == At(i + 1) && At(i + 1).prev == At(i)
      {
        if i < k {
          assert old(At(i).next == At(i + 1) && At(i + 1).prev == At(i));
        } else if k < i {
          assert old(At(i + 1).next == At(i + 2) && At(i + 2).prev == At(i + 1));
        }
      }
    }

    /** list_pop */
    method Pop() returns (top: Node)
      requires Valid() && elems != []
      modifies this`elems, head`next, At(2)`prev
      ensures Valid() && old(elems) == [top] + elems && !Has(top)
    {
      assert At(0).next == At(1);
      top := head.next;
      Remove(top, 0);
    }

    /** node_find */
    method Find(node: Node) returns (found: bool)
      requires Valid()
      ensures found == (node in elems)
    {
      assert At(0).next == At(1);
      var curr := head.next;
      ghost var i := 1;
      while curr != tail
        invariant 1 <= i < |elems| + 2 && curr == At(i)
        invariant forall j :: 0 <= j < i - 1 ==> elems[j] != node
        decreases |elems| - i
      {
        if curr == node {
          assert node == elems[i - 1];
          return true;
        }
        curr, i := curr.next, i + 1;
      }
      return false;
    }

    /** list_len */
    method Len() returns (len: nat)
      requires Valid()
      ensures len == |elems|
    {
      assert At(0).next == At(1);
      var curr := head.next;
      len := 0;
      while curr != tail
        invariant len <= |elems| && curr == At(len + 1)
        decreases |elems| - len
      {
        len := len + 1;
        curr := curr.next;
      }
    }

    /** list_empty */
    method Empty() returns (b: bool)
      requires Valid()
      ensures b == (elems == [])
    {
      assert At(0).next == At(1);
      b := head.next == tail;
    }
  }
}
