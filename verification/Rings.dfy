/**
 A family of intrusive lists that share one set of links: the run queue and all the wait
 lists of a scheduler thread.  Each list operation is proved to keep every list a ring and
 all rings disjoint, whatever list the link it moves is on.
 */
module Rings {
  import opened Common
  import opened Links

  type Node = Link<nat>

  /** Heads and links are different nodes; lists hold links, each at most once in all. */
  ghost predicate Shaped(heads: seq<Node>, lists: seq<seq<Node>>, links: set<Node>) {
    && |heads| == |lists| && Distinct(heads)
    && (forall w :: 0 <= w < |heads| ==> heads[w] !in links)
    && (forall w, i :: 0 <= w < |lists| && 0 <= i < |lists[w]| ==> lists[w][i] in links)
    && (forall w :: 0 <= w < |lists| ==> Distinct(lists[w]))
    && (forall w, v :: 0 <= w < |lists| && 0 <= v < |lists| && w != v ==> Apart(lists[w], lists[v]))
  }

  /** On no list. */
  ghost predicate Free(lists: seq<seq<Node>>, t: Node) {
    forall w :: 0 <= w < |lists| ==> t !in lists[w]
  }

  ghost function Ring(heads: seq<Node>, lists: seq<seq<Node>>, w: nat): seq<Node>
    requires w < |heads| == |lists|
  {
    [heads[w]] + lists[w]
  }

  /** Every list is a ring through its head, and a link on no list is a ring of its own. */
  ghost predicate Linked(heads: seq<Node>, lists: seq<seq<Node>>, links: set<Node>)
    requires Shaped(heads, lists, links)
    reads heads, links
  {
    && (forall w :: 0 <= w < |heads| ==> IsRing(heads, lists, links, w))
    && (forall t :: t in links && Free(lists, t) ==> Alone(t))
  }

  /** Always true; a proof that mentions it unfolds the families of lists around it. */
  predicate Unfolded(u: bool) { true }

  /**
   The lists are in shape and linked so.  This is what the owners of the lists carry about;
   it is guarded by `Unfolded` so that only the proofs that need the rings see them.
   */
  ghost predicate Family(heads: seq<Node>, lists: seq<seq<Node>>, links: set<Node>)
    reads heads, links
  {
    && |heads| == |lists|
    && forall u {:trigger Unfolded(u)} :: Unfolded(u) ==> Shaped(heads, lists, links) && Linked(heads, lists, links)
  }

  lemma Unfold(heads: seq<Node>, lists: seq<seq<Node>>, links: set<Node>)
    requires Family(heads, lists, links)
    ensures Shaped(heads, lists, links) && Linked(heads, lists, links)
  {
    assert Unfolded(true);
  }

  ghost predicate Alone(t: Node)
    reads t
  {
    Cycle([t])
  }

  ghost predicate IsRing(heads: seq<Node>, lists: seq<seq<Node>>, links: set<Node>, w: nat)
    requires Shaped(heads, lists, links) && w < |heads|
    reads heads, links
  {
    RingNodes(heads, lists, links, w);
    Cycle(Ring(heads, lists, w))
  }

  lemma RingNodes(heads: seq<Node>, lists: seq<seq<Node>>, links: set<Node>, w: nat)
    requires Shaped(heads, lists, links) && w < |heads|
    ensures forall x :: x in Ring(heads, lists, w) ==> x in heads || x in links
    ensures Distinct(Ring(heads, lists, w))
  {
    forall x | x in Ring(heads, lists, w) ensures x in heads || x in links {
      if x != heads[w] { var i :| 0 <= i < |lists[w]| && lists[w][i] == x; }
    }
  }

  /** No node of one ring is in another, and a free link is in none. */
  lemma RingsApart(heads: seq<Node>, lists: seq<seq<Node>>, links: set<Node>, w: nat, v: nat)
    requires Shaped(heads, lists, links) && w < |heads| && v < |heads| && w != v
    ensures forall i :: 0 <= i < |Ring(heads, lists, v)| ==> Ring(heads, lists, v)[i] !in Ring(heads, lists, w)
  {
    assert Apart(lists[v], lists[w]);
    var r, q := Ring(heads, lists, v), Ring(heads, lists, w);
    forall i, j | 0 <= i < |r| && 0 <= j < |q|
      ensures r[i] != q[j]
    {
      assert i > 0 ==> r[i] == lists[v][i - 1];
      assert j > 0 ==> q[j] == lists[w][j - 1];
    }
  }

  /** Before anything is linked every head and every link is a ring of its own. */
  lemma EmptyFamily(heads: seq<Node>, lists: seq<seq<Node>>, links: set<Node>)
    requires |heads| == |lists| && Distinct(heads) && forall w :: 0 <= w < |heads| ==> heads[w] !in links
    requires forall w :: 0 <= w < |lists| ==> lists[w] == []
    requires forall w :: 0 <= w < |heads| ==> Cycle([heads[w]])
    requires forall t :: t in links ==> Alone(t)
    ensures Family(heads, lists, links)
  {
    forall w | 0 <= w < |heads| ensures IsRing(heads, lists, links, w) {
      assert Ring(heads, lists, w) == [heads[w]];
    }
  }

  /** What is on a list is a link of the family. */
  lemma OnList(heads: seq<Node>, lists: seq<seq<Node>>, links: set<Node>, w: nat, k: nat)
    requires Family(heads, lists, links) && w < |lists| && k < |lists[w]|
    ensures lists[w][k] in links
  {
    Unfold(heads, lists, links);
  }

  /** The first node of a list, or its head; what list_empty says of it; and the node after. */
  lemma FirstOf(heads: seq<Node>, lists: seq<seq<Node>>, links: set<Node>, w: nat)
    requires Family(heads, lists, links) && w < |heads|
    ensures heads[w].next == if lists[w] == [] then heads[w] else lists[w][0]
    ensures IsEmpty(heads[w].next) <==> lists[w] == []
    ensures lists[w] != [] ==> lists[w][0] in links
    ensures lists[w] != [] ==> lists[w][0].next == if |lists[w]| == 1 then heads[w] else lists[w][1]
  {
    Unfold(heads, lists, links);
    assert IsRing(heads, lists, links, w);
    FirstInCycle(heads[w], lists[w]);
    EmptyExactlyWhenAlone(Ring(heads, lists, w), if lists[w] == [] then 0 else 1);
    if lists[w] != [] { PrevInCycle(Ring(heads, lists, w), 1); }
  }

  /** A link is on one list at most, so taking it off all lists takes it off that one. */
  lemma {:induction false} UnlistedAt(heads: seq<Node>, lists: seq<seq<Node>>, links: set<Node>, w: nat, k: nat)
    requires Shaped(heads, lists, links) && w < |heads| && k < |lists[w]|
    ensures Unlisted(lists, lists[w][k]) == lists[w := Without(lists[w], k)]
  {
    var t := lists[w][k];
    forall v | 0 <= v < |lists| ensures Remove(lists[v], t) == lists[w := Without(lists[w], k)][v] {
      if v == w {
        RemoveAt(lists[w], k);
      } else {
        assert Apart(lists[w], lists[v]);
        RemoveAbsent(lists[v], t);
      }
    }
  }

  /** Taking a link off its list leaves the lists in shape, with the link free. */
  lemma {:induction false} ShapeWithout(heads: seq<Node>, lists: seq<seq<Node>>, links: set<Node>, w: nat, k: nat)
    requires Shaped(heads, lists, links) && w < |heads| && k < |lists[w]|
    ensures var ls := lists[w := Without(lists[w], k)];
            && Shaped(heads, ls, links) && Free(ls, lists[w][k])
            && Ring(heads, ls, w) == Without(Ring(heads, lists, w), k + 1)
  {
    var ls := lists[w := Without(lists[w], k)];
    NodeApart(heads[w], lists[w], k);
    forall v | 0 <= v < |ls| ensures lists[w][k] !in ls[v] {
      if v != w { assert Apart(lists[w], lists[v]); }
    }
    forall v, u | 0 <= v < |ls| && 0 <= u < |ls| && v != u ensures Apart(ls[v], ls[u]) {
      assert Apart(lists[v], lists[u]);
    }
  }

  lemma UnlistedWhenFree(lists: seq<seq<Node>>, t: Node)
    requires Free(lists, t)
    ensures Unlisted(lists, t) == lists
  {
    forall v | 0 <= v < |lists| ensures Remove(lists[v], t) == lists[v] { RemoveAbsent(lists[v], t); }
  }

  /** The ring a link is in: the one of its list, or its own when it is on none (w is -1). */
  ghost function RingOf(heads: seq<Node>, lists: seq<seq<Node>>, t: Node, w: int): seq<Node>
    requires |heads| == |lists| && -1 <= w < |heads|
  {
    if w < 0 then [t] else Ring(heads, lists, w)
  }

  ghost predicate IsAt(heads: seq<Node>, lists: seq<seq<Node>>, links: set<Node>, t: Node, w: int, k: nat)
    requires Shaped(heads, lists, links)
  {
    -1 <= w < |heads| && t in links && k < |RingOf(heads, lists, t, w)| && RingOf(heads, lists, t, w)[k] == t &&
    (w < 0 ==> Free(lists, t))
  }

  /** No other ring and no other free link shares a node with the link's ring. */
  lemma RingOfApart(heads: seq<Node>, lists: seq<seq<Node>>, links: set<Node>, t: Node, w: int, k: nat, v: nat)
    requires Shaped(heads, lists, links) && IsAt(heads, lists, links, t, w, k) && v < |heads| && v != w
    ensures forall i :: 0 <= i < |Ring(heads, lists, v)| ==> Ring(heads, lists, v)[i] !in RingOf(heads, lists, t, w)
  {
    if w >= 0 {
      RingsApart(heads, lists, links, w, v);
    } else {
      var r := Ring(heads, lists, v);
      forall i | 0 <= i < |r| ensures r[i] != t { if i > 0 { assert r[i] == lists[v][i - 1] && r[i] in lists[v]; } }
    }
  }

  /** list_delete: it changes nodes of the link's own ring only. */
  method DeleteIn(
      t: Node, ghost heads: seq<Node>, ghost lists: seq<seq<Node>>, ghost links: set<Node>, ghost w: int,
      ghost k: nat)
    requires Shaped(heads, lists, links) && Linked(heads, lists, links) && IsAt(heads, lists, links, t, w, k)
    modifies heads, links
    ensures Cycle([t]) && (w >= 0 ==> Cycle(Without(Ring(heads, lists, w), k)))
    ensures forall x :: (x in links || x in heads) && x !in RingOf(heads, lists, t, w) ==> unchanged(x)
  {
    ghost var ring := RingOf(heads, lists, t, w);
    if w >= 0 {
      assert IsRing(heads, lists, links, w);
      RingNodes(heads, lists, links, w);
      assert |ring| > 1;
    } else {
      assert Alone(t);
    }
    PrevInCycle(ring, k);
    assert t.prev in ring && t.next in ring;
    Delete(t, ring, k);
  }

  /** ... so the other rings and the free links stay as they are. */
  method DeleteKeepingOthers(
      t: Node, ghost heads: seq<Node>, ghost lists: seq<seq<Node>>, ghost links: set<Node>, ghost w: int,
      ghost k: nat)
    requires Shaped(heads, lists, links) && Linked(heads, lists, links) && IsAt(heads, lists, links, t, w, k)
    modifies heads, links
    ensures Cycle([t]) && (w >= 0 ==> Cycle(Without(Ring(heads, lists, w), k)))
    ensures forall v :: 0 <= v < |heads| && v != w ==> IsRing(heads, lists, links, v)
    ensures forall x :: x in links && Free(lists, x) ==> Alone(x)
  {
    DeleteIn(t, heads, lists, links, w, k);
    forall v | 0 <= v < |heads| && v != w ensures IsRing(heads, lists, links, v) {
      assert old(IsRing(heads, lists, links, v));
      RingOfApart(heads, lists, links, t, w, k, v);
    }
    forall x | x in links && Free(lists, x) ensures Alone(x) {
      assert old(Alone(x));
      if w >= 0 { FreeOutside(heads, lists, links, w, x); }
    }
  }

  lemma FreeOutside(heads: seq<Node>, lists: seq<seq<Node>>, links: set<Node>, w: nat, x: Node)
    requires Shaped(heads, lists, links) && w < |heads| && x in links && Free(lists, x)
    ensures x !in Ring(heads, lists, w)
  {
    assert x !in lists[w];
  }

  /** list_delete of any link: its list loses it, wherever it was. */
  method Detach(t: Node, ghost heads: seq<Node>, ghost lists: seq<seq<Node>>, ghost links: set<Node>)
    requires Family(heads, lists, links) && t in links
    modifies heads, links
    ensures Family(heads, Unlisted(lists, t), links) && Free(Unlisted(lists, t), t)
  {
    Unfold(heads, lists, links);
    ghost var w: int, k: nat := Locate(heads, lists, links, t);
    DeleteKeepingOthers(t, heads, lists, links, w, k);
    AfterDelete(heads, lists, links, t, w, k);
  }

  lemma AfterDelete(heads: seq<Node>, lists: seq<seq<Node>>, links: set<Node>, t: Node, w: int, k: nat)
    requires Shaped(heads, lists, links) && IsAt(heads, lists, links, t, w, k) && (w >= 0 ==> k >= 1)
    requires Cycle([t]) && (w >= 0 ==> Cycle(Without(Ring(heads, lists, w), k)))
    requires forall v :: 0 <= v < |heads| && v != w ==> IsRing(heads, lists, links, v)
    requires forall x :: x in links && Free(lists, x) ==> Alone(x)
    ensures var ls := Unlisted(lists, t);
            Shaped(heads, ls, links) && Linked(heads, ls, links) && Free(ls, t)
  {
    if w >= 0 {
      AfterDetach(heads, lists, links, w, k - 1);
    } else {
      UnlistedWhenFree(lists, t);
    }
  }

  lemma Locate(heads: seq<Node>, lists: seq<seq<Node>>, links: set<Node>, t: Node) returns (w: int, k: nat)
    requires Shaped(heads, lists, links) && t in links
    ensures IsAt(heads, lists, links, t, w, k) && (w >= 0 ==> k >= 1)
  {
    if Free(lists, t) {
      w, k := -1, 0;
    } else {
      w :| 0 <= w < |lists| && t in lists[w];
      var i :| 0 <= i < |lists[w]| && lists[w][i] == t;
      k := i + 1;
    }
  }

  lemma {:induction false} AfterDetach(heads: seq<Node>, lists: seq<seq<Node>>, links: set<Node>, w: nat, k: nat)
    requires Shaped(heads, lists, links) && w < |heads| && k < |lists[w]|
    requires Cycle([lists[w][k]]) && Cycle(Without(Ring(heads, lists, w), k + 1))
    requires forall v :: 0 <= v < |heads| && v != w ==> IsRing(heads, lists, links, v)
    requires forall x :: x in links && Free(lists, x) ==> Alone(x)
    ensures var ls := Unlisted(lists, lists[w][k]);
            Shaped(heads, ls, links) && Linked(heads, ls, links) && Free(ls, lists[w][k])
  {
    var ls := lists[w := Without(lists[w], k)];
    ShapeWithout(heads, lists, links, w, k);
    UnlistedAt(heads, lists, links, w, k);
    forall v | 0 <= v < |heads| ensures IsRing(heads, ls, links, v) {
      if v != w { assert IsRing(heads, lists, links, v) && Ring(heads, ls, v) == Ring(heads, lists, v); }
    }
    forall x | x in links && Free(ls, x) ensures Alone(x) {
      if x != lists[w][k] { FreeStaysFree(heads, lists, links, w, k, x); }
    }
  }

  lemma FreeStaysFree(heads: seq<Node>, lists: seq<seq<Node>>, links: set<Node>, w: nat, k: nat, x: Node)
    requires Shaped(heads, lists, links) && w < |heads| && k < |lists[w]|
    requires x in links && Free(lists[w := Without(lists[w], k)], x) && x != lists[w][k]
    ensures Free(lists, x) && x !in Ring(heads, lists, w)
  {
    var ls := lists[w := Without(lists[w], k)];
    forall v | 0 <= v < |lists| ensures x !in lists[v] {
      assert x !in ls[v];
      if v == w { assert lists[w] == lists[w][..k] + [lists[w][k]] + lists[w][k + 1..]; }
    }
  }

  // ---- linking a free link into a list

  /** `q` is list w with the free link t put in at either end. */
  ghost predicate Extends(lists: seq<seq<Node>>, w: nat, t: Node, q: seq<Node>)
    requires w < |lists|
  {
    q == [t] + lists[w] || q == lists[w] + [t]
  }

  lemma ShapeWith(heads: seq<Node>, lists: seq<seq<Node>>, links: set<Node>, w: nat, t: Node, q: seq<Node>)
    requires Shaped(heads, lists, links) && w < |heads| && t in links && Free(lists, t) && Extends(lists, w, t, q)
    ensures Shaped(heads, lists[w := q], links)
    ensures forall x :: x in q <==> x == t || x in lists[w]
  {
    var ls := lists[w := q];
    forall v, u | 0 <= v < |ls| && 0 <= u < |ls| && v != u ensures Apart(ls[v], ls[u]) {
      assert Apart(lists[v], lists[u]);
      assert t !in lists[v] && t !in lists[u];
    }
    assert t !in lists[w];
  }

  /** The new ring together with everything that stayed. */
  lemma AfterLink(heads: seq<Node>, lists: seq<seq<Node>>, links: set<Node>, w: nat, t: Node, q: seq<Node>)
    requires Shaped(heads, lists, links) && w < |heads| && t in links && Free(lists, t) && Extends(lists, w, t, q)
    requires Cycle([heads[w]] + q)
    requires forall v :: 0 <= v < |heads| && v != w ==> IsRing(heads, lists, links, v)
    requires forall x :: x in links && Free(lists, x) && x != t ==> Alone(x)
    ensures Shaped(heads, lists[w := q], links) && Linked(heads, lists[w := q], links)
  {
    var ls := lists[w := q];
    ShapeWith(heads, lists, links, w, t, q);
    forall v | 0 <= v < |heads| ensures IsRing(heads, ls, links, v) {
      if v != w { assert IsRing(heads, lists, links, v) && Ring(heads, ls, v) == Ring(heads, lists, v); }
    }
    forall x | x in links && Free(ls, x) ensures Alone(x) {
      assert x !in ls[w];
      forall v | 0 <= v < |lists| ensures x !in lists[v] { assert x !in ls[v]; }
    }
  }

  /** Linking at list w touches its ring and the link; everything else stays. */
  method AddKeepingOthers(
      front: bool, head: Node, t: Node, ghost heads: seq<Node>, ghost lists: seq<seq<Node>>,
      ghost links: set<Node>, ghost w: nat)
    requires Shaped(heads, lists, links) && Linked(heads, lists, links)
    requires w < |heads| && heads[w] == head && t in links && Free(lists, t)
    modifies heads, links
    ensures Cycle([head] + if front then [t] + lists[w] else lists[w] + [t])
    ensures forall x :: (x in links || x in heads) && x !in Ring(heads, lists, w) && x != t ==> unchanged(x)
  {
    ghost var ring := Ring(heads, lists, w);
    assert IsRing(heads, lists, links, w);
    RingNodes(heads, lists, links, w);
    FirstInCycle(head, lists[w]);
    assert t !in lists[w] && head.prev in ring && head.next in ring;
    if front {
      AddAfter(head, t, ring);
      assert [head, t] + ring[1..] == [head] + ([t] + lists[w]);
    } else {
      AddBefore(head, t, ring);
      assert ring + [t] == [head] + (lists[w] + [t]);
    }
  }

  /** list_add_after or list_add_before a list head, of a link that is on no list. */
  method Add(
      front: bool, head: Node, t: Node, ghost heads: seq<Node>, ghost lists: seq<seq<Node>>,
      ghost links: set<Node>, ghost w: nat)
    requires Family(heads, lists, links)
    requires w < |heads| && heads[w] == head && t in links && Free(lists, t)
    modifies heads, links
    ensures Family(heads, lists[w := if front then [t] + lists[w] else lists[w] + [t]], links)
  {
    Unfold(heads, lists, links);
    AddKeepingOthers(front, head, t, heads, lists, links, w);
    forall v | 0 <= v < |heads| && v != w ensures IsRing(heads, lists, links, v) {
      assert old(IsRing(heads, lists, links, v));
      RingsApart(heads, lists, links, w, v);
      assert t !in lists[v];
    }
    forall x | x in links && Free(lists, x) && x != t ensures Alone(x) {
      assert old(Alone(x));
      FreeOutside(heads, lists, links, w, x);
    }
    AfterLink(heads, lists, links, w, t, if front then [t] + lists[w] else lists[w] + [t]);
  }

  /** list_delete, then list_add_after a head: the link moves to the front of that list. */
  method Move(
      head: Node, t: Node, ghost heads: seq<Node>, ghost lists: seq<seq<Node>>, ghost links: set<Node>, ghost w: nat)
    requires Family(heads, lists, links)
    requires w < |heads| && heads[w] == head && t in links
    modifies heads, links
    ensures Family(heads, Unlisted(lists, t)[w := [t] + Unlisted(lists, t)[w]], links)
  {
    Detach(t, heads, lists, links);
    Add(true, head, t, heads, Unlisted(lists, t), links, w);
  }

  /** The first link of a list is on no other. */
  lemma UnlistFirst(heads: seq<Node>, lists: seq<seq<Node>>, links: set<Node>, w: nat)
    requires Family(heads, lists, links) && w < |heads| && lists[w] != []
    ensures Unlisted(lists, lists[w][0]) == lists[w := lists[w][1..]]
  {
    Unfold(heads, lists, links);
    UnlistedAt(heads, lists, links, w, 0);
    assert Without(lists[w], 0) == lists[w][1..];
  }

  // ---- a family that grows and shrinks

  /** The node a link leads to: the next one on its list, or the head. */
  lemma NextOf(heads: seq<Node>, lists: seq<seq<Node>>, links: set<Node>, w: nat, k: nat)
    requires Family(heads, lists, links) && w < |heads| && k < |lists[w]|
    ensures lists[w][k] in links && lists[w][k] != heads[w]
    ensures lists[w][k].next == if k + 1 < |lists[w]| then lists[w][k + 1] else heads[w]
  {
    Unfold(heads, lists, links);
    assert IsRing(heads, lists, links, w);
    PrevInCycle(Ring(heads, lists, w), k + 1);
  }

  /** A link on no list joins the family ... */
  lemma {:induction false} FamilyWithLink(heads: seq<Node>, lists: seq<seq<Node>>, links: set<Node>, n: Node)
    requires Family(heads, lists, links) && n !in heads && n !in links && Alone(n)
    ensures Family(heads, lists, links + {n}) && Free(lists, n)
  {
    Unfold(heads, lists, links);
    var ls := links + {n};
    assert Shaped(heads, lists, ls);
    forall w | 0 <= w < |heads| ensures IsRing(heads, lists, ls, w) { assert IsRing(heads, lists, links, w); }
  }

  /** ... or leaves it. */
  lemma {:induction false} FamilyWithoutLink(heads: seq<Node>, lists: seq<seq<Node>>, links: set<Node>, n: Node)
    requires Family(heads, lists, links) && n in links && Free(lists, n)
    ensures Family(heads, lists, links - {n})
  {
    Unfold(heads, lists, links);
    var ls := links - {n};
    forall w, i | 0 <= w < |lists| && 0 <= i < |lists[w]| ensures lists[w][i] in ls {
      assert lists[w][i] in lists[w] && n !in lists[w];
    }
    assert Shaped(heads, lists, ls);
    forall w | 0 <= w < |heads| ensures IsRing(heads, lists, ls, w) { assert IsRing(heads, lists, links, w); }
  }

  /** A further list, empty, at the end ... */
  lemma {:induction false} FamilyWithHead(heads: seq<Node>, lists: seq<seq<Node>>, links: set<Node>, h: Node)
    requires Family(heads, lists, links) && h !in heads && h !in links && Alone(h)
    ensures Family(heads + [h], lists + [[]], links)
  {
    Unfold(heads, lists, links);
    var hs, ls := heads + [h], lists + [[]];
    DistinctSnoc(heads, h);
    forall w, v | 0 <= w < |ls| && 0 <= v < |ls| && w != v ensures Apart(ls[w], ls[v]) {
      if w < |lists| && v < |lists| { assert Apart(lists[w], lists[v]); }
    }
    assert Shaped(hs, ls, links);
    forall w | 0 <= w < |hs| ensures IsRing(hs, ls, links, w) {
      if w < |heads| {
        assert IsRing(heads, lists, links, w) && Ring(hs, ls, w) == Ring(heads, lists, w);
      } else {
        assert Ring(hs, ls, w) == [h];
      }
    }
    forall t | t in links && Free(ls, t) ensures Alone(t) {
      forall w | 0 <= w < |lists| ensures t !in lists[w] { assert t !in ls[w]; }
    }
  }

  /** ... can be taken away again. */
  lemma {:induction false} FamilyWithoutHead(heads: seq<Node>, lists: seq<seq<Node>>, links: set<Node>)
    requires Family(heads, lists, links) && heads != [] && lists[|lists| - 1] == []
    ensures var n := |heads| - 1; Family(heads[..n], lists[..n], links)
  {
    Unfold(heads, lists, links);
    var n := |heads| - 1;
    var hs, ls := heads[..n], lists[..n];
    forall w, v | 0 <= w < |ls| && 0 <= v < |ls| && w != v ensures Apart(ls[w], ls[v]) {
      assert Apart(lists[w], lists[v]);
    }
    assert Shaped(hs, ls, links);
    forall w | 0 <= w < |hs| ensures IsRing(hs, ls, links, w) {
      assert IsRing(heads, lists, links, w) && Ring(hs, ls, w) == Ring(heads, lists, w);
    }
    forall t | t in links && Free(ls, t) ensures Alone(t) {
      forall w | 0 <= w < |lists| ensures t !in lists[w] { if w < n { assert t !in ls[w]; } }
    }
  }

  /** list_init of a fresh link and list_add_before a head. */
  method AppendNew(
      head: Node, ghost heads: seq<Node>, ghost lists: seq<seq<Node>>, ghost links: set<Node>, ghost w: nat)
    returns (t: Node)
    requires Family(heads, lists, links) && w < |heads| && heads[w] == head
    modifies heads, links
    ensures fresh(t) && Family(heads, lists[w := lists[w] + [t]], links + {t})
  {
    t := new Link<nat>(None);
    FamilyWithLink(heads, lists, links, t);
    Add(false, head, t, heads, lists, links + {t}, w);
  }

  /** list_delete of a link that is then freed. */
  method Take(
      t: Node, ghost heads: seq<Node>, ghost lists: seq<seq<Node>>, ghost links: set<Node>, ghost w: nat,
      ghost k: nat)
    requires Family(heads, lists, links) && w < |heads| && k < |lists[w]| && lists[w][k] == t
    modifies heads, links
    ensures Family(heads, lists[w := Without(lists[w], k)], links - {t})
  {
    Unfold(heads, lists, links);
    UnlistedAt(heads, lists, links, w, k);
    Detach(t, heads, lists, links);
    FamilyWithoutLink(heads, lists[w := Without(lists[w], k)], links, t);
  }

  /** list_delete, then list_add_before another head. */
  method MoveTail(
      head: Node, t: Node, ghost heads: seq<Node>, ghost lists: seq<seq<Node>>, ghost links: set<Node>,
      ghost w: nat, ghost k: nat, ghost v: nat)
    requires Family(heads, lists, links) && w < |heads| && k < |lists[w]| && lists[w][k] == t
    requires v < |heads| && v != w && heads[v] == head
    modifies heads, links
    ensures Family(heads, lists[w := Without(lists[w], k)][v := lists[v] + [t]], links)
  {
    Unfold(heads, lists, links);
    UnlistedAt(heads, lists, links, w, k);
    Detach(t, heads, lists, links);
    Add(false, head, t, heads, lists[w := Without(lists[w], k)], links, v);
  }
}
