/** The scheduler's intrusive run queue (kernel/kernel/SchedulerThreadNode.cpp, SchedulerQueue). */
module SchedulerQueue {
  import opened Sequences
  import opened ThreadNode

  // In the union, queue.next is the word `parent` and queue.prev is the word `lchild`.

  ghost predicate Linked(s: seq<Node>, i: int)
    requires 0 <= i < |s|
    reads s
  {
    && s[i].parent == (if i + 1 < |s| then s[i + 1] else null)
    && s[i].lchild == (if i > 0 then s[i - 1] else null)
    && s[i].rchild == null
  }

  class Queue {
    var head: Node?
    var tail: Node?
    ghost var items: seq<Node>

    constructor ()
      ensures Valid() && items == []
    {
      head, tail, items := null, null, [];
    }

    ghost predicate Valid()
      reads this, items
    {
      && Distinct(items)
      && (forall i :: 0 <= i < |items| ==> Linked(items, i))
      && head == (if items == [] then null else items[0])
      && tail == (if items == [] then null else items[|items| - 1])
    }

    lemma AreDistinct()
      requires Valid()
      ensures Distinct(items)
    {
    }

    predicate Empty()
      requires Valid()
      reads this, items
      ensures Empty() <==> items == []
    {
      head == null
    }

    /** The node goes to the end. */
    method Push(node: Node)
      requires Valid() && node.Unlinked() && node !in items
      modifies this, items`parent, node`parent, node`lchild
      ensures Valid() && items == old(items) + [node]
    {
      node.lchild := tail;
      node.parent := null;
      if tail != null {
        tail.parent := node;
      } else {
        head := node;
      }
      tail := node;
      items := items + [node];
      forall i | 0 <= i < |items| ensures Linked(items, i) {
        assert i < |items| - 1 ==> old(Linked(items, i));
      }
    }

    /** The first node leaves, unlinked; null from an empty queue. */
    method PopFront() returns (result: Node?)
      requires Valid()
      modifies this, items`parent, items`lchild
      ensures Valid()
      ensures old(items) == [] ==> result == null && items == []
      ensures old(items) != [] ==>
        result == old(items)[0] && items == old(items)[1..] && result.Unlinked() && result !in items
    {
      if Empty() {
        return null;
      }
      assert Linked(items, 0);
      if |items| > 1 { assert Linked(items, 1); }
      result := head;
      head := head.parent;
      if head != null {
        head.lchild := null;
      } else {
        tail := null;
      }
      result.lchild := null;
      result.parent := null;
      items := items[1..];
      forall i | 0 <= i < |items| ensures Linked(items, i) {
        assert old(Linked(items, i + 1));
      }
    }

    /** Any member leaves, unlinked, and the others keep their order. */
    method Pop(node: Node, ghost k: nat)
      requires Valid() && k < |items| && items[k] == node
      modifies this, items`parent, items`lchild
      ensures Valid() && items == old(items[..k] + items[k + 1..])
      ensures node.Unlinked()
    {
      ghost var was := items;
      DistinctWithout(was, k);
      assert Linked(items, k);
      if k > 0 { assert Linked(items, k - 1); }
      if k + 1 < |items| { assert Linked(items, k + 1); }
      if node.lchild != null {
        node.lchild.parent := node.parent;
      } else {
        head := node.parent;
      }
      if node.parent != null {
        node.parent.lchild := node.lchild;
      } else {
        tail := node.lchild;
      }
      node.lchild := null;
      node.parent := null;
      items := items[..k] + items[k + 1..];
      forall i | 0 <= i < |items| ensures Linked(items, i) {
        ghost var j := if i < k then i else i + 1;
        assert old(Linked(items, j)) && items[i] == was[j] && was[j] != node;
        assert i + 1 < |items| ==> items[i + 1] == was[if j + 1 == k then j + 2 else j + 1];
        assert i > 0 ==> items[i - 1] == was[if j - 1 == k then j - 2 else j - 1];
      }
    }
  }
}
