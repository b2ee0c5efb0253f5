/** The double-ended queue of deque.c, over rings of links; queue.h is its push_back and pop_front. */
module Deque {
  import opened Common
  import opened Links

  class Deque<T> {
    const head: Link<T>
    var size: int
    ghost var nodes: seq<Link<T>>   // the ring behind the head

    ghost predicate Valid()
      reads this, head, nodes
    {
      && Cycle([head] + nodes)
      && size == |nodes|
      && Embedded(nodes)
    }

    /** The elements, front first. */
    ghost function Contents(): (s: seq<T>)
      requires Valid()
      reads this, head, nodes
      ensures |s| == size
    {
      Items(nodes)
    }

    constructor ()
      ensures Valid() && Contents() == [] && fresh(head)
    {
      head := new Link(None);
      size := 0;
      nodes := [];
    }

    method PushFront(x: T)
      requires Valid()
      modifies this, head, nodes
      ensures Valid() && Contents() == [x] + old(Contents())
      ensures nodes[1..] == old(nodes) && fresh(nodes[0])
    {
      var n := new Link(Some(x));
      ghost var was, ring := nodes, [head] + nodes;
      FirstInCycle(head, was);
      AddAfter(head, n, ring);
      assert [head, n] + ring[1..] == [head] + ([n] + was);
      ItemsCons(n, was);
      nodes := [n] + was;
      size := size + 1;
    }

    method PushBack(x: T)
      requires Valid()
      modifies this, head, nodes
      ensures Valid() && Contents() == old(Contents()) + [x]
      ensures nodes[..|old(nodes)|] == old(nodes) && fresh(nodes[|old(nodes)|])
    {
      var n := new Link(Some(x));
      ghost var was, ring := nodes, [head] + nodes;
      FirstInCycle(head, was);
      AddBefore(head, n, ring);
      assert ring + [n] == [head] + (was + [n]);
      ItemsSnoc(was, n);
      nodes := was + [n];
      size := size + 1;
    }

    /** list_delete of the k-th node. */
    method Detach(l: Link<T>, ghost k: nat)
      requires Valid() && k < |nodes| && nodes[k] == l
      modifies this, head, nodes
      ensures Valid() && nodes == Without(old(nodes), k)
      ensures Cycle([l]) && l != head && l !in nodes
    {
      ghost var ring := [head] + nodes;
      PrevInCycle(ring, k + 1);
      assert (l.next == head || l.next in nodes) && (l.prev == head || l.prev in nodes);
      NodeApart(head, nodes, k);
      Delete(l, ring, k + 1);
      nodes := Without(nodes, k);
      size := size - 1;
    }

    /** list_delete and then delete_node, which unlinks a node that is alone by now. */
    method Unlink(l: Link<T>, ghost k: nat)
      requires Valid() && k < |nodes| && nodes[k] == l
      modifies this, head, nodes
      ensures Valid() && nodes == Without(old(nodes), k)
    {
      Detach(l, k);
      PrevInCycle([l], 0);
      Delete(l, [l], 0);
    }

    /** deque_pop: from the front when `front`, else from the back; NULL when empty. */
    method Pop(front: bool) returns (r: Option<T>)
      requires Valid()
      modifies this, head, nodes
      ensures Valid()
      ensures var ns := old(nodes);
              nodes == if ns == [] then [] else if front then ns[1..] else ns[..|ns| - 1]
      ensures var s := old(Contents());
              if s == [] then r == None && Contents() == []
              else if front then r == Some(s[0]) && Contents() == s[1..]
              else r == Some(s[|s| - 1]) && Contents() == s[..|s| - 1]
    {
      if size == 0 { return None; }
      FirstInCycle(head, nodes);
      var l := if front then head.next else head.prev;
      Unlink(l, if front then 0 else |nodes| - 1);
      r := l.item;
    }

    method Clear()
      requires Valid()
      modifies this, head, nodes
      ensures Valid() && Contents() == []
    {
      ghost var all := nodes;
      while size != 0
        invariant Valid() && forall k :: 0 <= k < |nodes| ==> nodes[k] in all
        decreases size
        modifies this, head, all
      {
        var _ := Pop(true);
      }
    }
  }
}
