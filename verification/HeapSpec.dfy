/**
 The binary heap of heap.c, as functions on the sequence of its elements, and what those
 functions achieve.  The methods of Heap are proved equal to them.

 The order is the one a comparator induces.  Both kinds of comparator in the repository are
 covered: strict ones such as _id_cmp, and the non-strict _default_cmp.
 */
module HeapSpec {

  // ---- comparators

  /** `a` may stand above `b`. */
  predicate Le<T>(cmp: (T, T) -> bool, a: T, b: T) { cmp(a, b) || !cmp(b, a) }

  ghost predicate Transits<T>(cmp: (T, T) -> bool, a: T, b: T, c: T) {
    Le(cmp, a, b) && Le(cmp, b, c) ==> Le(cmp, a, c)
  }

  ghost predicate Comparator<T(!new)>(cmp: (T, T) -> bool) {
    forall a, b, c :: Transits(cmp, a, b, c)
  }

  lemma LeTrans<T(!new)>(cmp: (T, T) -> bool, a: T, b: T, c: T)
    requires Comparator(cmp) && Le(cmp, a, b) && Le(cmp, b, c)
    ensures Le(cmp, a, c)
  {
    assert Transits(cmp, a, b, c);
  }

  ghost predicate StrictWeakOrder<T(!new)>(cmp: (T, T) -> bool) {
    && (forall a :: !cmp(a, a))
    && (forall a, b, c :: cmp(a, b) && cmp(b, c) ==> cmp(a, c))
    && (forall a, b, c :: !cmp(a, b) && !cmp(b, c) ==> !cmp(a, c))
  }

  ghost predicate TotalPreorder<T(!new)>(cmp: (T, T) -> bool) {
    && (forall a, b :: cmp(a, b) || cmp(b, a))
    && (forall a, b, c :: cmp(a, b) && cmp(b, c) ==> cmp(a, c))
  }

  lemma StrictIsComparator<T(!new)>(cmp: (T, T) -> bool)
    requires StrictWeakOrder(cmp)
    ensures Comparator(cmp) && forall a, b :: cmp(a, b) ==> !Le(cmp, b, a)
  {
    assert forall a, b :: cmp(a, b) ==> !cmp(b, a) by { assert forall a, b :: cmp(a, b) && cmp(b, a) ==> cmp(a, a); }
    forall a, b, c
      ensures Transits(cmp, a, b, c)
    {
      if Le(cmp, a, b) && Le(cmp, b, c) { assert !cmp(b, a) && !cmp(c, b); }
    }
  }

  lemma NonStrictIsComparator<T(!new)>(cmp: (T, T) -> bool)
    requires TotalPreorder(cmp)
    ensures Comparator(cmp)
  {
    forall a, b, c
      ensures Transits(cmp, a, b, c)
    {
      if Le(cmp, a, b) && Le(cmp, b, c) { assert cmp(a, b) && cmp(b, c); }
    }
  }

  /** Values the comparator puts first without need are the same value. */
  ghost predicate Faithful<T(!new)>(cmp: (T, T) -> bool) {
    forall a, b :: NeedlessIsSame(cmp, a, b)
  }

  ghost predicate NeedlessIsSame<T>(cmp: (T, T) -> bool, a: T, b: T) {
    cmp(a, b) && Le(cmp, b, a) ==> a == b
  }

  // ---- the operations

  function Parent(i: nat): nat { if i == 0 then 0 else (i - 1) / 2 }

  /** parent(size - 1) as the loops compute it: on an empty heap the size wraps and -1 comes out. */
  function LastParent(size: nat): int { if size == 0 then -1 else Parent(size - 1) }

  function Swapped<T>(s: seq<T>, i: nat, j: nat): seq<T>
    requires i < |s| && j < |s|
  {
    s[i := s[j]][j := s[i]]
  }

  /** The choice heapify makes between a node and its children. */
  function Top<T>(cmp: (T, T) -> bool, s: seq<T>, root: nat): (max: nat)
    requires root < |s|
    ensures max < |s|
    ensures || max == root
            || (Parent(max) == root < max && cmp(s[max], s[root]))
            || (max == 2 * root + 2 && 2 * root + 1 < |s|)
  {
    var left, right := 2 * root + 1, 2 * root + 2;
    var max := if left < |s| && cmp(s[left], s[root]) then left else root;
    if right < |s| && cmp(s[right], s[max]) then right else max
  }

  function Heapified<T>(cmp: (T, T) -> bool, s: seq<T>, root: nat): seq<T> {
    if root < |s| then Swapped(s, Top(cmp, s, root), root) else s
  }

  /** heap_fixup: one heapify at `start` and at every index below it, downwards. */
  function FixedUp<T>(cmp: (T, T) -> bool, s: seq<T>, start: nat): seq<T>
    decreases start
  {
    if start == 0 then Heapified(cmp, s, 0) else FixedUp(cmp, Heapified(cmp, s, start), start - 1)
  }

  /** What the loop of heap_fixup still has to do with `start` to come. */
  ghost function FixUpFrom<T>(cmp: (T, T) -> bool, s: seq<T>, start: int): seq<T> {
    if start < 0 then s else FixedUp(cmp, s, start)
  }

  lemma FixUpUnfolds<T>(cmp: (T, T) -> bool, s: seq<T>, start: nat)
    ensures FixUpFrom(cmp, s, start) == FixUpFrom(cmp, Heapified(cmp, s, start), start - 1)
  {}

  function Pushed<T>(cmp: (T, T) -> bool, s: seq<T>, x: T): seq<T> {
    FixedUp(cmp, s + [x], Parent(|s|))
  }

  /** heap_fixdown from `root` on. */
  function FixedDown<T>(cmp: (T, T) -> bool, s: seq<T>, root: nat): (r: seq<T>)
    ensures |r| == |s|
    decreases |s| - root
  {
    if root >= |s| || root > Parent(|s| - 1) then s
    else
      var max := Top(cmp, s, root);
      if max == root then s else FixedDown(cmp, Swapped(s, max, root), max)
  }

  /** What heap_pop leaves behind. */
  function Rest<T>(cmp: (T, T) -> bool, s: seq<T>): seq<T>
    requires s != []
  {
    var n := |s| - 1;
    if n == 0 then [] else FixedDown(cmp, s[..n][0 := s[n]], 0)
  }

  // ---- heap order

  /** Node `i` and the node above it are in order. */
  ghost predicate Edge<T>(cmp: (T, T) -> bool, s: seq<T>, i: nat)
    requires 1 <= i < |s|
  {
    Le(cmp, s[Parent(i)], s[i])
  }

  ghost predicate Ordered<T>(cmp: (T, T) -> bool, s: seq<T>) {
    forall i :: 1 <= i < |s| ==> Edge(cmp, s, i)
  }

  /** Node `i`, a child of `c`, is in order with the node above `c`. */
  ghost predicate Skip<T>(cmp: (T, T) -> bool, s: seq<T>, c: nat, i: nat)
    requires c < |s| && i < |s|
  {
    Le(cmp, s[Parent(c)], s[i])
  }

  /** Ordered, except that the element at `c` may belong above its parent. */
  ghost predicate OrderedBut<T>(cmp: (T, T) -> bool, s: seq<T>, c: nat)
    requires c < |s|
  {
    && (forall i :: 1 <= i < |s| && i != c ==> Edge(cmp, s, i))
    && (forall i :: 1 <= i < |s| && Parent(i) == c ==> Skip(cmp, s, c, i))
  }

  /** The same shape up to equivalence under the comparator. */
  ghost predicate Equivalent<T>(cmp: (T, T) -> bool, s: seq<T>, r: seq<T>) {
    |s| == |r| && forall i :: 0 <= i < |s| ==> Le(cmp, s[i], r[i]) && Le(cmp, r[i], s[i])
  }

  lemma SwapPermutes<T>(s: seq<T>, i: nat, j: nat)
    requires i < |s| && j < |s|
    ensures multiset(Swapped(s, i, j)) == multiset(s)
  {}

  lemma {:induction false} FixUpPermutes<T>(cmp: (T, T) -> bool, s: seq<T>, start: nat)
    ensures multiset(FixedUp(cmp, s, start)) == multiset(s)
    decreases start
  {
    if start < |s| { SwapPermutes(s, Top(cmp, s, start), start); }
    if start > 0 { FixUpPermutes(cmp, Heapified(cmp, s, start), start - 1); }
  }

  lemma {:induction false} FixDownPermutes<T>(cmp: (T, T) -> bool, s: seq<T>, root: nat)
    ensures multiset(FixedDown(cmp, s, root)) == multiset(s)
    decreases |s| - root
  {
    if root < |s| && root <= Parent(|s| - 1) {
      var max := Top(cmp, s, root);
      if max != root {
        SwapPermutes(s, max, root);
        FixDownPermutes(cmp, Swapped(s, max, root), max);
      }
    }
  }

  // ---- heap_push restores the order

  /** Where a node is already above its children, heapify swaps equivalent elements at most. */
  lemma HeapifyOfOrderedNode<T(!new)>(cmp: (T, T) -> bool, s: seq<T>, root: nat)
    requires Comparator(cmp) && root < |s|
    requires 2 * root + 1 < |s| ==> Le(cmp, s[root], s[2 * root + 1])
    requires 2 * root + 2 < |s| ==> Le(cmp, s[root], s[2 * root + 2])
    ensures Equivalent(cmp, s, Heapified(cmp, s, root))
    ensures Faithful(cmp) ==> Heapified(cmp, s, root) == s
  {
    var max := Top(cmp, s, root);
    TopIsLeast(cmp, s, root);
    assert Le(cmp, s[root], s[max]);
    if Faithful(cmp) { TopIsSame(cmp, s, root); }
  }

  lemma TopIsSame<T(!new)>(cmp: (T, T) -> bool, s: seq<T>, root: nat)
    requires Faithful(cmp) && root < |s|
    requires 2 * root + 1 < |s| ==> Le(cmp, s[root], s[2 * root + 1])
    requires 2 * root + 2 < |s| ==> Le(cmp, s[root], s[2 * root + 2])
    ensures s[Top(cmp, s, root)] == s[root]
  {
    var left, right := 2 * root + 1, 2 * root + 2;
    if left < |s| { assert NeedlessIsSame(cmp, s[left], s[root]); }
    if right < |s| { assert NeedlessIsSame(cmp, s[right], s[root]); }
  }

  lemma EquivalentKeepsOrder<T(!new)>(cmp: (T, T) -> bool, s: seq<T>, r: seq<T>, c: nat)
    requires Comparator(cmp) && c < |s| && Equivalent(cmp, s, r) && OrderedBut(cmp, s, c)
    ensures OrderedBut(cmp, r, c)
  {
    forall i | 1 <= i < |r| && i != c
      ensures Edge(cmp, r, i)
    {
      assert Edge(cmp, s, i);
      LeTrans(cmp, r[Parent(i)], s[Parent(i)], s[i]);
      LeTrans(cmp, r[Parent(i)], s[i], r[i]);
    }
    forall i | 1 <= i < |r| && Parent(i) == c
      ensures Skip(cmp, r, c, i)
    {
      assert Skip(cmp, s, c, i);
      LeTrans(cmp, r[Parent(c)], s[Parent(c)], s[i]);
      LeTrans(cmp, r[Parent(c)], s[i], r[i]);
    }
  }

  /** At the parent of the misplaced element, heapify moves the exception one level up. */
  lemma HeapifyLifts<T(!new)>(cmp: (T, T) -> bool, s: seq<T>, c: nat)
    requires Comparator(cmp) && 1 <= c < |s| && OrderedBut(cmp, s, c)
    ensures |Heapified(cmp, s, Parent(c))| == |s| && OrderedBut(cmp, Heapified(cmp, s, Parent(c)), Parent(c))
  {
    var root := Parent(c);
    var max := Top(cmp, s, root);
    var r := Swapped(s, max, root);
    TopIsLeast(cmp, s, root);
    forall i | 1 <= i < |r| && i != root
      ensures Edge(cmp, r, i)
    {
      if Parent(i) == root {
        assert i == 2 * root + 1 || i == 2 * root + 2;
      } else if Parent(i) == max {
        LiftedBelow(cmp, s, c, i);
      } else {
        assert Edge(cmp, s, i);
      }
    }
    forall i | 1 <= i < |r| && Parent(i) == root
      ensures Skip(cmp, r, root, i)
    {
      if root > 0 { LiftedAbove(cmp, s, c, i); } else { assert i == 2 * root + 1 || i == 2 * root + 2; }
    }
  }

  /** heapify puts on top an element no child precedes. */
  lemma TopIsLeast<T(!new)>(cmp: (T, T) -> bool, s: seq<T>, root: nat)
    requires Comparator(cmp) && root < |s|
    ensures var max := Top(cmp, s, root);
            && Le(cmp, s[max], s[root])
            && (2 * root + 1 < |s| ==> Le(cmp, s[max], s[2 * root + 1]))
            && (2 * root + 2 < |s| ==> Le(cmp, s[max], s[2 * root + 2]))
  {
    var left, right := 2 * root + 1, 2 * root + 2;
    var m := if left < |s| && cmp(s[left], s[root]) then left else root;
    assert Le(cmp, s[m], s[root]) && (left < |s| ==> Le(cmp, s[m], s[left]));
    if right < |s| && cmp(s[right], s[m]) {
      LeTrans(cmp, s[right], s[m], s[root]);
      LeTrans(cmp, s[right], s[m], s[left]);
    }
  }

  lemma LiftedBelow<T(!new)>(cmp: (T, T) -> bool, s: seq<T>, c: nat, i: nat)
    requires Comparator(cmp) && 1 <= c < |s| && OrderedBut(cmp, s, c)
    requires 1 <= i < |s| && Parent(i) == Top(cmp, s, Parent(c)) != Parent(c)
    ensures Le(cmp, s[Parent(c)], s[i])
  {
    var max := Parent(i);
    if max == c {
      assert Skip(cmp, s, c, i);
    } else {
      assert Edge(cmp, s, max) && Edge(cmp, s, i);
      LeTrans(cmp, s[Parent(c)], s[max], s[i]);
    }
  }

  lemma LiftedAbove<T(!new)>(cmp: (T, T) -> bool, s: seq<T>, c: nat, i: nat)
    requires Comparator(cmp) && 1 <= c < |s| && OrderedBut(cmp, s, c) && Parent(c) > 0
    requires 1 <= i < |s| && Parent(i) == Parent(c)
    ensures Le(cmp, s[Parent(Parent(c))], Swapped(s, Top(cmp, s, Parent(c)), Parent(c))[i])
  {
    var root := Parent(c);
    var max := Top(cmp, s, root);
    assert Edge(cmp, s, root);
    TopIsLeast(cmp, s, root);
    if i != max {
      assert i == 2 * root + 1 || i == 2 * root + 2;
      if max == c {
        assert Edge(cmp, s, i);
      } else {
        assert max != root ==> Edge(cmp, s, max);
        LeTrans(cmp, s[root], s[max], s[i]);
      }
      LeTrans(cmp, s[Parent(root)], s[root], s[i]);
    }
  }

  lemma {:induction false} FixUpOrders<T(!new)>(cmp: (T, T) -> bool, s: seq<T>, c: nat, start: nat)
    requires Comparator(cmp) && c < |s| && start < |s| && OrderedBut(cmp, s, c)
    requires c == 0 || Parent(c) <= start
    ensures Ordered(cmp, FixedUp(cmp, s, start))
    decreases start
  {
    var r := Heapified(cmp, s, start);
    if c > 0 && Parent(c) == start {
      HeapifyLifts(cmp, s, c);
      if start > 0 { FixUpOrders(cmp, r, start, start - 1); }
    } else {
      NodeIsOrdered(cmp, s, c, start);
      HeapifyOfOrderedNode(cmp, s, start);
      EquivalentKeepsOrder(cmp, s, r, c);
      if start > 0 { FixUpOrders(cmp, r, c, start - 1); }
    }
  }

  lemma NodeIsOrdered<T(!new)>(cmp: (T, T) -> bool, s: seq<T>, c: nat, root: nat)
    requires c < |s| && root < |s| && OrderedBut(cmp, s, c) && (c == 0 || Parent(c) != root)
    ensures 2 * root + 1 < |s| ==> Le(cmp, s[root], s[2 * root + 1])
    ensures 2 * root + 2 < |s| ==> Le(cmp, s[root], s[2 * root + 2])
  {
    if 2 * root + 1 < |s| { assert Edge(cmp, s, 2 * root + 1); }
    if 2 * root + 2 < |s| { assert Edge(cmp, s, 2 * root + 2); }
  }

  lemma AppendIsOrderedBut<T(!new)>(cmp: (T, T) -> bool, s: seq<T>, x: T)
    requires Ordered(cmp, s)
    ensures OrderedBut(cmp, s + [x], |s|)
  {
    forall i | 1 <= i < |s| ensures Edge(cmp, s + [x], i) { assert Edge(cmp, s, i); }
  }

  /** Pushing keeps the heap order and adds exactly the new element. */
  lemma PushKeepsHeap<T(!new)>(cmp: (T, T) -> bool, s: seq<T>, x: T)
    requires Comparator(cmp) && Ordered(cmp, s)
    ensures Ordered(cmp, Pushed(cmp, s, x))
    ensures multiset(Pushed(cmp, s, x)) == multiset(s) + multiset{x}
  {
    AppendIsOrderedBut(cmp, s, x);
    FixUpOrders(cmp, s + [x], |s|, Parent(|s|));
    FixUpPermutes(cmp, s + [x], Parent(|s|));
  }

  // ---- and gives what textbook sift-up gives

  function SiftedUp<T>(cmp: (T, T) -> bool, s: seq<T>, c: nat): seq<T>
    requires c < |s|
    decreases c
  {
    if c > 0 && cmp(s[c], s[Parent(c)]) then SiftedUp(cmp, Swapped(s, c, Parent(c)), Parent(c)) else s
  }

  /** An ordered heap is left alone. */
  lemma {:induction false} HeapifyOfOrdered<T(!new)>(cmp: (T, T) -> bool, s: seq<T>, i: nat)
    requires Comparator(cmp) && Faithful(cmp) && Ordered(cmp, s) && i < |s|
    ensures Heapified(cmp, s, i) == s
  {
    if 2 * i + 1 < |s| { assert Edge(cmp, s, 2 * i + 1); }
    if 2 * i + 2 < |s| { assert Edge(cmp, s, 2 * i + 2); }
    HeapifyOfOrderedNode(cmp, s, i);
  }

  /** At the parent of the misplaced element, heapify makes exactly the sift-up swap. */
  lemma HeapifyIsSiftStep<T(!new)>(cmp: (T, T) -> bool, s: seq<T>, c: nat)
    requires Comparator(cmp) && Faithful(cmp) && 1 <= c < |s| && OrderedBut(cmp, s, c)
    ensures Heapified(cmp, s, Parent(c)) == if cmp(s[c], s[Parent(c)]) then Swapped(s, c, Parent(c)) else s
  {
    var root := Parent(c);
    var max := Top(cmp, s, root);
    var left, right := 2 * root + 1, 2 * root + 2;
    if c == right {
      assert Edge(cmp, s, left);
      assert NeedlessIsSame(cmp, s[left], s[root]);
    } else if right < |s| {
      assert Edge(cmp, s, right);
      assert NeedlessIsSame(cmp, s[right], s[root]);
      if cmp(s[left], s[root]) && cmp(s[right], s[left]) {
        LeTrans(cmp, s[left], s[root], s[right]);
        assert NeedlessIsSame(cmp, s[right], s[left]);
      }
    }
  }

  lemma {:induction false} RootIsInPlace<T>(cmp: (T, T) -> bool, s: seq<T>)
    requires s != []
    ensures OrderedBut(cmp, s, 0) <==> Ordered(cmp, s)
  {
    if Ordered(cmp, s) {
      forall i | 1 <= i < |s| && Parent(i) == 0 ensures Skip(cmp, s, 0, i) { assert Edge(cmp, s, i); }
    }
  }

  /**
   One heapify of the descending pass, with element c misplaced at most: it changes nothing,
   or makes the swap of sift-up, which then goes on from the parent.
   */
  lemma {:induction false} SiftStep<T(!new)>(
      cmp: (T, T) -> bool, s: seq<T>, c: nat, start: nat) returns (s': seq<T>, c': nat)
    requires Comparator(cmp) && Faithful(cmp) && c < |s| && start < |s| && OrderedBut(cmp, s, c)
    requires c == 0 || Parent(c) <= start
    ensures s' == Heapified(cmp, s, start) && |s'| == |s|
    ensures c' < |s'| && OrderedBut(cmp, s', c') && (c' == 0 || Parent(c') < start)
    ensures SiftedUp(cmp, s, c) == SiftedUp(cmp, s', c')
  {
    if c > 0 && Parent(c) < start {
      OffPath(cmp, s, c, start);
      s', c' := s, c;
    } else if c > 0 && cmp(s[c], s[start]) {
      OnPath(cmp, s, c);
      s', c' := Swapped(s, c, start), start;
    } else {
      if c > 0 { InPlace(cmp, s, c); }
      RootIsInPlace(cmp, s);
      HeapifyOfOrdered(cmp, s, start);
      s', c' := s, 0;
    }
  }

  lemma {:induction false} FixUpIsSiftUp<T(!new)>(cmp: (T, T) -> bool, s: seq<T>, c: nat, start: nat)
    requires Comparator(cmp) && Faithful(cmp) && c < |s| && start < |s| && OrderedBut(cmp, s, c)
    requires c == 0 || Parent(c) <= start
    ensures FixedUp(cmp, s, start) == SiftedUp(cmp, s, c)
    decreases start
  {
    var s', c' := SiftStep(cmp, s, c, start);
    if start > 0 { FixUpIsSiftUp(cmp, s', c', start - 1); }
  }

  lemma OffPath<T(!new)>(cmp: (T, T) -> bool, s: seq<T>, c: nat, root: nat)
    requires Comparator(cmp) && Faithful(cmp) && c < |s| && root < |s| && OrderedBut(cmp, s, c) && Parent(c) != root
    ensures Heapified(cmp, s, root) == s
  {
    NodeIsOrdered(cmp, s, c, root);
    HeapifyOfOrderedNode(cmp, s, root);
  }

  lemma InPlace<T(!new)>(cmp: (T, T) -> bool, s: seq<T>, c: nat)
    requires 1 <= c < |s| && OrderedBut(cmp, s, c) && !cmp(s[c], s[Parent(c)])
    ensures Ordered(cmp, s)
  {
    assert Edge(cmp, s, c);
  }

  lemma OnPath<T(!new)>(cmp: (T, T) -> bool, s: seq<T>, c: nat)
    requires Comparator(cmp) && Faithful(cmp) && 1 <= c < |s| && OrderedBut(cmp, s, c) && cmp(s[c], s[Parent(c)])
    ensures Heapified(cmp, s, Parent(c)) == Swapped(s, c, Parent(c))
    ensures OrderedBut(cmp, Swapped(s, c, Parent(c)), Parent(c))
  {
    HeapifyIsSiftStep(cmp, s, c);
    HeapifyLifts(cmp, s, c);
  }

  /** The descending pass over all inner nodes yields exactly the textbook sift-up. */
  lemma PushIsSiftUp<T(!new)>(cmp: (T, T) -> bool, s: seq<T>, x: T)
    requires Comparator(cmp) && Faithful(cmp) && Ordered(cmp, s)
    ensures Pushed(cmp, s, x) == SiftedUp(cmp, s + [x], |s|)
  {
    AppendIsOrderedBut(cmp, s, x);
    FixUpIsSiftUp(cmp, s + [x], |s|, Parent(|s|));
  }

  /** A comparator that is not faithful has a heap on which the two differ. */
  lemma UnfaithfulDiffers<T(!new)>(cmp: (T, T) -> bool, a: T, b: T)
    requires cmp(a, b) && Le(cmp, b, a) && a != b
    ensures Ordered(cmp, [b, b, a])
    ensures Pushed(cmp, [b, b, a], b) == [a, b, b, b] && SiftedUp(cmp, [b, b, a, b], 3) == [b, b, a, b]
  {
    var s := [b, b, a] + [b];
    assert s == [b, b, a, b];
    assert Heapified(cmp, s, 1) == s;
    assert Top(cmp, s, 0) == 2 && Heapified(cmp, s, 0) == [a, b, b, b];
    assert Parent(3) == 1 && FixedUp(cmp, s, 1) == FixedUp(cmp, s, 0);
    assert Swapped(s, 3, 1) == s && Swapped(s, 1, 0) == s;
    assert SiftedUp(cmp, s, 1) == s;
  }

  /** _default_cmp, on addresses. */
  const DefaultCmp: (int, int) -> bool := (first, second) => !(first > second)

  lemma DefaultIsFaithful()
    ensures Comparator(DefaultCmp) && Faithful(DefaultCmp)
  {
    forall a, b, c ensures Transits(DefaultCmp, a, b, c) {}
    forall a, b ensures NeedlessIsSame(DefaultCmp, a, b) {}
  }

  datatype Ranked = Ranked(rank: int, tag: int)

  /** A comparator a user could pass: records ordered by one field, equal ones either way. */
  const ByRank: (Ranked, Ranked) -> bool := (a: Ranked, b: Ranked) => a.rank <= b.rank

  lemma ByRankIsNotFaithful()
    ensures Comparator(ByRank) && !Faithful(ByRank)
    ensures var a, b := Ranked(0, 0), Ranked(0, 1);
            Ordered(ByRank, [b, b, a]) && Pushed(ByRank, [b, b, a], b) != SiftedUp(ByRank, [b, b, a, b], 3)
  {
    forall a, b, c ensures Transits(ByRank, a, b, c) {}
    var a, b := Ranked(0, 0), Ranked(0, 1);
    assert !NeedlessIsSame(ByRank, a, b);
    UnfaithfulDiffers(ByRank, a, b);
    var s, r := [a, b, b, b], [b, b, a, b];
    assert s[0] != r[0];
  }

  /** The pass equals sift-up on every heap exactly for the faithful comparators. */
  lemma SiftUpExactlyWhenFaithful<T(!new)>(cmp: (T, T) -> bool)
    requires Comparator(cmp)
    ensures (forall s: seq<T>, x :: Ordered(cmp, s) ==> Pushed(cmp, s, x) == SiftedUp(cmp, s + [x], |s|))
            <==> Faithful(cmp)
  {
    if Faithful(cmp) {
      forall s: seq<T>, x | Ordered(cmp, s)
        ensures Pushed(cmp, s, x) == SiftedUp(cmp, s + [x], |s|)
      {
        PushIsSiftUp(cmp, s, x);
      }
    } else {
      var a, b :| !NeedlessIsSame(cmp, a, b);
      UnfaithfulDiffers(cmp, a, b);
      assert [b, b, a] + [b] == [b, b, a, b];
      assert Pushed(cmp, [b, b, a], b)[0] != SiftedUp(cmp, [b, b, a] + [b], |[b, b, a]|)[0];
    }
  }

  // ---- heap_pop

  /** Ordered, except that the element at `r` may belong below its children. */
  ghost predicate OrderedBelow<T>(cmp: (T, T) -> bool, s: seq<T>, r: nat)
    requires r < |s|
  {
    && (forall i :: 1 <= i < |s| && Parent(i) != r ==> Edge(cmp, s, i))
    && (forall i :: 1 <= i < |s| && Parent(i) == r && r > 0 ==> Skip(cmp, s, r, i))
  }

  lemma NoChildPrecedes<T(!new)>(cmp: (T, T) -> bool, s: seq<T>, root: nat)
    requires Comparator(cmp) && root < |s| && OrderedBelow(cmp, s, root) && Top(cmp, s, root) == root
    ensures Ordered(cmp, s)
  {
    TopIsLeast(cmp, s, root);
    forall i | 1 <= i < |s|
      ensures Edge(cmp, s, i)
    {
      if Parent(i) == root { assert i == 2 * root + 1 || i == 2 * root + 2; }
    }
  }

  /** heapify moves the exception into the child it swapped. */
  lemma HeapifySinks<T(!new)>(cmp: (T, T) -> bool, s: seq<T>, root: nat)
    requires Comparator(cmp) && root < |s| && OrderedBelow(cmp, s, root) && Top(cmp, s, root) != root
    ensures OrderedBelow(cmp, Swapped(s, Top(cmp, s, root), root), Top(cmp, s, root))
  {
    var max := Top(cmp, s, root);
    var r := Swapped(s, max, root);
    TopIsLeast(cmp, s, root);
    forall i | 1 <= i < |r| && Parent(i) != max
      ensures Edge(cmp, r, i)
    {
      if Parent(i) == root {
        assert i == 2 * root + 1 || i == 2 * root + 2;
      } else if i == root {
        assert Skip(cmp, s, root, max);
      } else {
        assert Edge(cmp, s, i);
      }
    }
    forall i | 1 <= i < |r| && Parent(i) == max
      ensures Skip(cmp, r, max, i)
    {
      assert Edge(cmp, s, i);
    }
  }

  lemma {:induction false} FixDownOrders<T(!new)>(cmp: (T, T) -> bool, s: seq<T>, root: nat)
    requires Comparator(cmp) && root < |s| && OrderedBelow(cmp, s, root)
    ensures Ordered(cmp, FixedDown(cmp, s, root))
    decreases |s| - root
  {
    if root > Parent(|s| - 1) {
      assert forall i :: 1 <= i < |s| ==> Edge(cmp, s, i);
    } else if Top(cmp, s, root) == root {
      NoChildPrecedes(cmp, s, root);
    } else {
      HeapifySinks(cmp, s, root);
      FixDownOrders(cmp, Swapped(s, Top(cmp, s, root), root), Top(cmp, s, root));
    }
  }

  lemma {:induction false} RootIsLeast<T(!new)>(cmp: (T, T) -> bool, s: seq<T>, i: nat)
    requires Comparator(cmp) && Ordered(cmp, s) && i < |s|
    ensures Le(cmp, s[0], s[i])
    decreases i
  {
    if i > 0 {
      RootIsLeast(cmp, s, Parent(i));
      assert Edge(cmp, s, i);
      LeTrans(cmp, s[0], s[Parent(i)], s[i]);
    }
  }

  lemma MovedLastIsOrderedBelow<T(!new)>(cmp: (T, T) -> bool, s: seq<T>)
    requires Ordered(cmp, s) && |s| >= 2
    ensures OrderedBelow(cmp, s[..|s| - 1][0 := s[|s| - 1]], 0)
  {
    var r := s[..|s| - 1][0 := s[|s| - 1]];
    forall i | 1 <= i < |r| && Parent(i) != 0 ensures Edge(cmp, r, i) { assert Edge(cmp, s, i); }
  }

  lemma MovedLastElements<T(!new)>(s: seq<T>)
    requires |s| >= 2
    ensures multiset(s[..|s| - 1][0 := s[|s| - 1]]) == multiset(s) - multiset{s[0]}
  {
    var n := |s| - 1;
    assert s == [s[0]] + s[1..n] + [s[n]];
    assert s[..n][0 := s[n]] == [s[n]] + s[1..n];
  }

  /** Popping removes exactly one occurrence of a least element and keeps the heap order. */
  lemma PopKeepsHeap<T(!new)>(cmp: (T, T) -> bool, s: seq<T>)
    requires Comparator(cmp) && Ordered(cmp, s) && s != []
    ensures Ordered(cmp, Rest(cmp, s))
    ensures multiset(Rest(cmp, s)) == multiset(s) - multiset{s[0]}
    ensures forall x :: x in s ==> Le(cmp, s[0], x)
  {
    forall x | x in s ensures Le(cmp, s[0], x) {
      var i: nat :| i < |s| && s[i] == x;
      RootIsLeast(cmp, s, i);
    }
    if |s| >= 2 {
      MovedLastIsOrderedBelow(cmp, s);
      MovedLastElements(s);
      FixDownOrders(cmp, s[..|s| - 1][0 := s[|s| - 1]], 0);
      FixDownPermutes(cmp, s[..|s| - 1][0 := s[|s| - 1]], 0);
    } else {
      assert s == [s[0]];
    }
  }

  // ---- pushing a list and draining it sorts it

  function Built<T>(cmp: (T, T) -> bool, xs: seq<T>): seq<T> {
    if xs == [] then [] else Pushed(cmp, Built(cmp, xs[..|xs| - 1]), xs[|xs| - 1])
  }

  function Drained<T>(cmp: (T, T) -> bool, s: seq<T>): seq<T>
    decreases |s|
  {
    if s == [] then [] else [s[0]] + Drained(cmp, Rest(cmp, s))
  }

  ghost predicate Sorted<T>(cmp: (T, T) -> bool, r: seq<T>) {
    forall i, j :: 0 <= i < j < |r| ==> Le(cmp, r[i], r[j])
  }

  lemma {:induction false} DrainSorts<T(!new)>(cmp: (T, T) -> bool, s: seq<T>)
    requires Comparator(cmp) && Ordered(cmp, s)
    ensures Sorted(cmp, Drained(cmp, s)) && multiset(Drained(cmp, s)) == multiset(s)
    decreases |s|
  {
    if s != [] {
      PopKeepsHeap(cmp, s);
      DrainSorts(cmp, Rest(cmp, s));
      RootFirst(cmp, s, Drained(cmp, Rest(cmp, s)));
    }
  }

  /** The root followed by the rest in order is the whole in order. */
  lemma {:induction false} RootFirst<T(!new)>(cmp: (T, T) -> bool, s: seq<T>, rest: seq<T>)
    requires s != [] && Sorted(cmp, rest) && multiset(rest) == multiset(s) - multiset{s[0]}
    requires forall x :: x in s ==> Le(cmp, s[0], x)
    ensures Sorted(cmp, [s[0]] + rest) && multiset([s[0]] + rest) == multiset(s)
  {
    assert s[0] in multiset(s);
    forall j | 0 <= j < |rest|
      ensures Le(cmp, s[0], rest[j])
    {
      assert rest[j] in multiset(rest);
      assert rest[j] in multiset(s);
    }
  }

  lemma {:induction false} BuildKeepsHeap<T(!new)>(cmp: (T, T) -> bool, xs: seq<T>)
    requires Comparator(cmp)
    ensures Ordered(cmp, Built(cmp, xs)) && multiset(Built(cmp, xs)) == multiset(xs)
    decreases |xs|
  {
    if xs != [] {
      var n := |xs| - 1;
      BuildKeepsHeap(cmp, xs[..n]);
      PushKeepsHeap(cmp, Built(cmp, xs[..n]), xs[n]);
      assert xs == xs[..n] + [xs[n]];
    }
  }

  /** Pushing any inputs and popping until empty yields them sorted. */
  lemma HeapSorts<T(!new)>(cmp: (T, T) -> bool, xs: seq<T>)
    requires Comparator(cmp)
    ensures var r := Drained(cmp, Built(cmp, xs));
            Sorted(cmp, r) && multiset(r) == multiset(xs)
  {
    BuildKeepsHeap(cmp, xs);
    DrainSorts(cmp, Built(cmp, xs));
  }
}
