/**
 The intrusive circular list of list.c on the heap.  A ring is given by the ghost sequence of
 its nodes in `next` order; the three updates are proved to do to the pointers what the
 sequence operations do to the ring.
 */
module Links {
  import opened Common

  /**
   `item` stands for the structure a link is embedded in, which the source recovers with
   list_to_struct; a list head is embedded in none.
   */
  class Link<T> {
    var prev: Link<T>
    var next: Link<T>
    const item: Option<T>

    /** list_init of a fresh node */
    constructor (item: Option<T>)
      ensures Cycle([this]) && this.item == item
    {
      this.item := item;
      prev, next := this, this;
    }
  }

  function After(i: nat, n: nat): nat { if i + 1 == n then 0 else i + 1 }

  /** `s` is a whole ring: following `next` from each node reaches the following one, and `prev` goes back. */
  ghost predicate Cycle<T>(s: seq<Link<T>>)
    reads s
  {
    && s != [] && Distinct(s)
    && (forall i :: 0 <= i < |s| ==> s[i].next == s[After(i, |s|)])
    && (forall i :: 0 <= i < |s| ==> s[After(i, |s|)].prev == s[i])
  }

  lemma PrevInCycle<T>(s: seq<Link<T>>, k: nat)
    requires Cycle(s) && k < |s|
    ensures s[k].prev == s[if k == 0 then |s| - 1 else k - 1]
    ensures s[k].next == s[After(k, |s|)]
  {
    assert k > 0 ==> After(k - 1, |s|) == k;
    assert After(|s| - 1, |s|) == 0;
  }

  /** The neighbours of a list head. */
  lemma FirstInCycle<T>(head: Link<T>, nodes: seq<Link<T>>)
    requires Cycle([head] + nodes)
    ensures head.next == (if nodes == [] then head else nodes[0])
    ensures head.prev == (if nodes == [] then head else nodes[|nodes| - 1])
  {
    PrevInCycle([head] + nodes, 0);
  }

  /** Taking a node out of the ring behind a head. */
  lemma NodeApart<X>(head: X, nodes: seq<X>, k: nat)
    requires Distinct([head] + nodes) && k < |nodes|
    ensures nodes[k] != head && nodes[k] !in Without(nodes, k)
    ensures Without([head] + nodes, k + 1) == [head] + Without(nodes, k)
  {
    var ring := [head] + nodes;
    assert ring[0] == head && forall i :: 0 <= i < |nodes| ==> ring[i + 1] == nodes[i];
  }

  /** Every node is embedded in a structure. */
  ghost predicate Embedded<T>(s: seq<Link<T>>) {
    forall i :: 0 <= i < |s| ==> s[i].item.Some?
  }

  /** The structures the nodes are embedded in. */
  ghost function Items<T>(s: seq<Link<T>>): (r: seq<T>)
    requires Embedded(s)
    ensures |r| == |s| && forall i :: 0 <= i < |s| ==> r[i] == s[i].item.value
  {
    if s == [] then [] else Items(s[..|s| - 1]) + [s[|s| - 1].item.value]
  }

  lemma {:induction false} ItemsCons<T>(n: Link<T>, s: seq<Link<T>>)
    requires Embedded(s) && n.item.Some?
    ensures Embedded([n] + s) && Items([n] + s) == [n.item.value] + Items(s)
  {}

  lemma {:induction false} ItemsSnoc<T>(s: seq<Link<T>>, n: Link<T>)
    requires Embedded(s) && n.item.Some?
    ensures Embedded(s + [n]) && Items(s + [n]) == Items(s) + [n.item.value]
  {}

  /** list_add_before: insert at the tail of the ring that starts with `ls`. */
  method AddBefore<T>(ls: Link<T>, elm: Link<T>, ghost s: seq<Link<T>>)
    requires Cycle(s) && s[0] == ls && elm !in s
    modifies ls, ls.prev, elm
    ensures Cycle(s + [elm])
  {
    PrevInCycle(s, 0);
    var p := ls.prev;
    elm.prev := p;
    elm.next := ls;
    ls.prev := elm;
    p.next := elm;
  }

  /** list_add_after, and list_add: insert right behind `ls`. */
  method AddAfter<T>(ls: Link<T>, elm: Link<T>, ghost s: seq<Link<T>>)
    requires Cycle(s) && s[0] == ls && elm !in s
    modifies ls, ls.next, elm
    ensures Cycle([ls, elm] + s[1..])
  {
    PrevInCycle(s, 0);
    var n := ls.next;
    elm.prev := ls;
    elm.next := n;
    n.prev := elm;
    ls.next := elm;
    ghost var r := [ls, elm] + s[1..];
    forall i | 0 <= i < |r|
      ensures r[i].next == r[After(i, |r|)] && r[After(i, |r|)].prev == r[i]
    {
      if i >= 2 { assert r[i] == s[i - 1] && r[After(i, |r|)] == s[After(i - 1, |s|)]; }
    }
  }

  /** In a ring that loses node k, the node before k is followed by the node after it, and the rest as before. */
  lemma {:induction false} AfterWithout<X>(s: seq<X>, k: nat, i: nat)
    requires k < |s| && i < |s| - 1
    ensures var r, j := Without(s, k), if i < k then i else i + 1;
            && r[i] == s[j] && j != k
            && r[After(i, |r|)] == (if After(j, |s|) == k then s[After(k, |s|)] else s[After(j, |s|)])
            && (After(j, |s|) == k <==> j == if k == 0 then |s| - 1 else k - 1) && After(j, |s|) != After(k, |s|)
  {}

  /** list_delete: unlink and leave the node as a ring of its own. */
  method Delete<T>(elm: Link<T>, ghost s: seq<Link<T>>, ghost k: nat)
    requires Cycle(s) && k < |s| && s[k] == elm
    modifies elm, elm.prev, elm.next
    ensures Cycle([elm]) && (|s| > 1 ==> Cycle(Without(s, k)))
  {
    PrevInCycle(s, k);
    var p, n := elm.prev, elm.next;
    p.next := n;
    n.prev := p;
    elm.prev, elm.next := elm, elm;
    ghost var r := Without(s, k);
    forall i | 0 <= i < |r|
      ensures r[i].next == r[After(i, |r|)] && r[After(i, |r|)].prev == r[i]
    {
      AfterWithout(s, k, i);
      ghost var j := if i < k then i else i + 1;
      if After(j, |s|) == k {
        assert s[j] == p;
      } else {
        assert s[After(j, |s|)] != n && s[j] != p;
      }
    }
  }

  /** list_empty holds of a node exactly when it is alone in its ring. */
  predicate IsEmpty<T>(ls: Link<T>)
    reads ls
  {
    ls.prev == ls.next && ls.prev == ls
  }

  lemma EmptyExactlyWhenAlone<T>(s: seq<Link<T>>, k: nat)
    requires Cycle(s) && k < |s|
    ensures IsEmpty(s[k]) <==> |s| == 1
  {
    PrevInCycle(s, k);
  }
}
