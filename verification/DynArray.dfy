/** The growable array of array.c. */
module DynArray {
  import opened Common

  const MIN_CAPACITY := 256

  /**
   What array_insert leaves in the array.  Its shift loop runs upwards, so every slot behind
   the insertion point receives a copy of the element that was there.
   */
  function Inserted<T>(s: seq<T>, idx: nat, x: T): seq<T>
    requires idx <= |s|
  {
    if idx == |s| then s + [x] else s[..idx] + [x] + seq(|s| - idx, _ => s[idx])
  }

  /** It is an insertion exactly when the elements it should have moved up are all equal. */
  lemma InsertsExactlyBeforeEqualElements<T>(s: seq<T>, idx: nat, x: T)
    requires idx <= |s|
    ensures Inserted(s, idx, x) == s[..idx] + [x] + s[idx..] <==> forall k :: idx <= k < |s| ==> s[k] == s[idx]
  {
    var r, t := Inserted(s, idx, x), s[..idx] + [x] + s[idx..];
    assert |r| == |t| == |s| + 1;
    if r == t {
      forall k | idx <= k < |s| ensures s[k] == s[idx] {
        assert t[k + 1] == s[k] && r[k + 1] == s[idx];
      }
    } else {
      var k :| 0 <= k < |r| && r[k] != t[k];
      assert k > idx && t[k] == s[k - 1] && r[k] == s[idx];
    }
  }

  /**
   What array_del leaves.  Its loop increments the index and uses it on both sides of one
   assignment; the language does not say whether the left side sees the old index.
   */
  function Deleted<T>(s: seq<T>, idx: nat, leftFirst: bool): seq<T>
    requires idx < |s|
  {
    if leftFirst then Without(s, idx) else s[..|s| - 1]
  }

  /** It is a deletion of that element if the left side does, or else exactly when nothing had to move visibly. */
  lemma {:induction false} DeletesExactlyInOrderOrBeforeEqualElements<T>(s: seq<T>, idx: nat, leftFirst: bool)
    requires idx < |s|
    ensures Deleted(s, idx, leftFirst) == Without(s, idx) <==>
            leftFirst || forall k :: idx <= k < |s| ==> s[k] == s[idx]
  {
    var r, t := s[..|s| - 1], Without(s, idx);
    if r == t {
      forall k | idx <= k < |s| ensures s[k] == s[idx] { EqualFrom(s, idx, k); }
    } else {
      var k :| 0 <= k < |r| && r[k] != t[k];
      assert k >= idx && t[k] == s[k + 1];
    }
  }

  lemma {:induction false} EqualFrom<T>(s: seq<T>, idx: nat, k: nat)
    requires idx <= k < |s| && s[..|s| - 1] == Without(s, idx)
    ensures s[k] == s[idx]
    decreases k
  {
    if k > idx {
      EqualFrom(s, idx, k - 1);
      assert s[..|s| - 1][k - 1] == Without(s, idx)[k - 1];
    }
  }

  class DynArray<T(0)> {
    var vector: array?<T>
    var size: nat
    var capacity: nat

    ghost predicate Valid()
      reads this
    {
      if vector == null then size == 0 else vector.Length == capacity && 0 < capacity && size <= capacity
    }

    function Elements(): (s: seq<T>)
      requires Valid()
      reads this, vector
      ensures |s| == size
    {
      if vector == null then [] else vector[..size]
    }

    constructor ()
      ensures Valid() && Elements() == [] && vector == null && capacity == 0
    {
      vector, size, capacity := null, 0, 0;
    }

    /** realloc_array: a first allocation, or a doubling that keeps the elements. */
    method Grow()
      requires Valid()
      modifies this
      ensures Valid() && fresh(vector) && Elements() == old(Elements())
      ensures capacity == if old(vector) != null then 2 * old(capacity)
                          else if old(capacity) != 0 then old(capacity) else MIN_CAPACITY
      ensures size < capacity
    {
      if vector == null {
        size := 0;
        capacity := if capacity != 0 then capacity else MIN_CAPACITY;
        vector := new T[capacity];
        return;
      }
      var ta := vector;
      capacity := capacity * 2;
      var v := new T[capacity];
      var i := 0;
      while i < size
        invariant i <= size
        invariant v[..i] == ta[..i]
        modifies v
      {
        v[i] := ta[i];
        i := i + 1;
      }
      vector := v;
    }

    /** The shift loop of array_insert, which runs upwards. */
    method Shift(idx: nat)
      requires Valid() && vector != null && idx <= size < capacity
      modifies vector
      ensures forall k :: 0 <= k < idx ==> vector[k] == old(vector[k])
      ensures idx < size ==> forall k :: idx <= k <= size ==> vector[k] == old(vector[idx])
    {
      var loc := idx;
      while loc < size
        invariant idx <= loc <= size
        invariant forall k :: 0 <= k < idx ==> vector[k] == old(vector[k])
        invariant loc == idx || forall k :: idx <= k <= loc ==> vector[k] == old(vector[idx])
        invariant loc == idx ==> vector[idx] == old(vector[idx])
      {
        vector[loc + 1] := vector[loc];
        loc := loc + 1;
      }
    }

    /** array_insert: refused beyond the end. */
    method Insert(idx: nat, x: T) returns (ok: bool)
      requires Valid()
      modifies this, vector
      ensures Valid() && (vector == old(vector) || fresh(vector))
      ensures ok <==> idx <= old(size)
      ensures Elements() == if idx <= old(size) then Inserted(old(Elements()), idx, x) else old(Elements())
    {
      if idx > size { return false; }
      if vector == null || capacity <= size { Grow(); }
      ghost var s := Elements();
      Shift(idx);
      vector[idx] := x;
      size := size + 1;
      assert Elements() == Inserted(s, idx, x);
      return true;
    }

    /** array_put */
    method Put(idx: nat, x: T) returns (ok: bool)
      requires Valid()
      modifies vector
      ensures Valid() && ok == (idx < size)
      ensures Elements() == if idx < size then old(Elements())[idx := x] else old(Elements())
    {
      if idx >= size { return false; }
      vector[idx] := x;
      return true;
    }

    /** array_get: NULL beyond the end. */
    function Get(idx: nat): (r: Option<T>)
      requires Valid()
      reads this, vector
      ensures r == if idx < |Elements()| then Some(Elements()[idx]) else None
    {
      if idx >= size then None else Some(vector[idx])
    }

    /** The shift loop of array_del. */
    method Unshift(idx: nat, leftFirst: bool)
      requires Valid() && vector != null && idx < size
      modifies vector
      ensures forall k :: 0 <= k < idx ==> vector[k] == old(vector[k])
      ensures forall k :: idx <= k < size - 1 ==> vector[k] == if leftFirst then old(vector[k + 1]) else old(vector[k])
    {
      var loc := idx;
      while loc < size - 1
        invariant idx <= loc <= size - 1
        invariant forall k :: 0 <= k < idx || loc <= k < size ==> vector[k] == old(vector[k])
        invariant forall k :: idx <= k < loc ==> vector[k] == if leftFirst then old(vector[k + 1]) else old(vector[k])
      {
        if leftFirst { vector[loc] := vector[loc + 1]; } else { vector[loc + 1] := vector[loc + 1]; }
        loc := loc + 1;
      }
    }

    /** array_del: NULL beyond the end. */
    method Delete(idx: nat, leftFirst: bool) returns (r: Option<T>)
      requires Valid()
      modifies this`size, vector
      ensures Valid() && r == if idx < old(size) then Some(old(Elements())[idx]) else None
      ensures Elements() == if idx < old(size) then Deleted(old(Elements()), idx, leftFirst) else old(Elements())
    {
      if idx >= size { return None; }
      r := Some(vector[idx]);
      ghost var s := Elements();
      Unshift(idx, leftFirst);
      size := size - 1;
      assert Elements() == Deleted(s, idx, leftFirst);
    }
  }
}
