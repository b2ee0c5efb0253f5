/** heap.c in place on its array, proved equal to the functions of HeapSpec. */
module Heap {
  import opened Common
  import opened DynArray
  import opened HeapSpec

  class Heap<T(0,!new)> {
    const cmp: (T, T) -> bool
    const items: DynArray<T>

    ghost predicate Valid()
      reads this, items
    {
      items.Valid()
    }

    function Elements(): (s: seq<T>)
      requires Valid()
      reads this, items, items.vector
      ensures |s| == items.size
    {
      items.Elements()
    }

    constructor (cmp: (T, T) -> bool)
      ensures Valid() && Elements() == [] && this.cmp == cmp && fresh(items) && items.vector == null
    {
      this.cmp := cmp;
      items := new DynArray();
    }

    method Swap(l: nat, r: nat)
      requires Valid() && l < items.size && r < items.size
      modifies items.vector
      ensures Valid() && Elements() == Swapped(old(Elements()), l, r)
    {
      var tmp := items.Get(l).value;
      var _ := items.Put(l, items.Get(r).value);
      var _ := items.Put(r, tmp);
    }

    method Heapify(root: nat) returns (max: nat)
      requires Valid()
      modifies items.vector
      ensures Valid() && Elements() == Heapified(cmp, old(Elements()), root)
      ensures max == if root < items.size then Top(cmp, old(Elements()), root) else 0
    {
      var size := items.size;
      if !(root < size) { return 0; }
      var left := if 2 * root + 1 < size then 2 * root + 1 else -1;
      var right := if 2 * root + 2 < size then 2 * root + 2 else -1;
      max := root;
      if left > 0 && cmp(items.Get(left).value, items.Get(max).value) { max := left; }
      if right > 0 && cmp(items.Get(right).value, items.Get(max).value) { max := right; }
      if max != root { Swap(max, root); }
    }

    /** heap_fixup: a heapify at every inner node, from the last one down to the root. */
    method FixUp()
      requires Valid()
      modifies items.vector
      ensures Valid() && Elements() == FixUpFrom(cmp, old(Elements()), LastParent(items.size))
    {
      var start := LastParent(items.size);
      ghost var goal := FixUpFrom(cmp, Elements(), start);
      while start >= 0
        invariant Valid() && -1 <= start && goal == FixUpFrom(cmp, Elements(), start)
        decreases start
      {
        FixUpUnfolds(cmp, Elements(), start);
        var _ := Heapify(start);
        start := start - 1;
      }
    }

    /** heap_fixdown: follow the swaps down from the root. */
    method FixDown()
      requires Valid()
      modifies items.vector
      ensures Valid() && Elements() == FixedDown(cmp, old(Elements()), 0)
    {
      var stop := LastParent(items.size);
      var root := 0;
      ghost var goal := FixedDown(cmp, Elements(), 0);
      while root <= stop
        invariant Valid() && 0 <= root
        invariant goal == FixedDown(cmp, Elements(), root)
        decreases items.size - root
      {
        var max := Heapify(root);
        if max == root { break; }
        root := max;
      }
    }

    method Push(x: T)
      requires Valid()
      modifies items, items.vector
      ensures Valid() && (items.vector == old(items.vector) || fresh(items.vector))
      ensures Elements() == Pushed(cmp, old(Elements()), x)
      ensures Comparator(cmp) && Ordered(cmp, old(Elements())) ==>
                Ordered(cmp, Elements()) && multiset(Elements()) == multiset(old(Elements())) + multiset{x}
    {
      ghost var s := Elements();
      var _ := items.Insert(items.size, x);
      assert Elements() == s + [x];
      FixUp();
      assert Elements() == Pushed(cmp, s, x);
      if Comparator(cmp) && Ordered(cmp, s) { PushKeepsHeap(cmp, s, x); }
    }

    /** heap_pop: fails on an empty heap. */
    method Pop() returns (r: Option<T>)
      requires Valid()
      modifies items, items.vector
      ensures Valid() && items.vector == old(items.vector)
      ensures var s := old(Elements());
              if s == [] then r == None && Elements() == [] else r == Some(s[0]) && Elements() == Rest(cmp, s)
      ensures Comparator(cmp) && Ordered(cmp, old(Elements())) && r.Some? ==>
                && Ordered(cmp, Elements())
                && multiset(Elements()) == multiset(old(Elements())) - multiset{r.value}
                && forall x :: x in old(Elements()) ==> Le(cmp, r.value, x)
    {
      if items.size == 0 { return None; }
      r := items.Get(0);
      ghost var s, n := Elements(), items.size - 1;
      assert Without(s, n) == s[..n];
      var leftFirst: bool := *;
      var last := items.Delete(items.size - 1, leftFirst);
      var _ := items.Put(0, last.value);
      FixDown();
      if Comparator(cmp) && Ordered(cmp, old(Elements())) { PopKeepsHeap(cmp, old(Elements())); }
    }
  }
}
