/**
 The hash map of hash_map.c in place: buckets on rings that double when they fill up.  Every
 call does to the buckets what HashRuns.Step does to the plain list of nodes.
 */
module HashMap {
  import opened Common
  import opened HashSpec
  import opened HashTable
  import opened Buckets
  import R = HashRuns

  class HashMap<V> {
    const myHash: Name -> int
    const buckets: Buckets<V>
    var capacity: nat
    var count: int
    ghost var entries: seq<Node<V>>

    ghost predicate Valid()
      reads this, buckets, buckets.heads, buckets.store.Keys
    {
      buckets.Valid() && Holds(buckets.Table(), capacity, count, entries)
    }

    /** hash_map_init */
    constructor (myHash: Name -> int)
      ensures Valid() && entries == [] && capacity == INITIAL_CAPACITY && this.myHash == myHash
      ensures fresh(buckets) && fresh(buckets.heads) && buckets.store == map[]
    {
      this.myHash := myHash;
      capacity, count, entries := INITIAL_CAPACITY, 0, [];
      buckets := new Buckets();
      new;
      for i := 0 to INITIAL_CAPACITY
        invariant buckets.Valid() && |buckets.Table()| == i
        invariant fresh(buckets) && fresh(buckets.heads) && buckets.store == map[]
        invariant capacity == INITIAL_CAPACITY && count == 0 && entries == []
        invariant forall k :: 0 <= k < i ==> buckets.Table()[k] == Head([], 0)
      {
        buckets.AddBucket();
      }
    }

    /** The bucket of a name, and the first match in it. */
    method Locate(name: Name) returns (key: int, idx: nat, ls: RingLink, found: bool, ghost j: nat)
      requires Valid() && IsName(name)
      ensures key == myHash(name) && idx == Index(key, capacity) < |buckets.heads|
      ensures LocatedAt(buckets.Table(), capacity, entries, key, name, idx, j, found)
      ensures found ==> buckets.IsAt(ls, idx, j)
      ensures found ==> ls in buckets.store && buckets.store[ls] == buckets.Table()[idx].nodes[j]
    {
      key := myHash(name);
      idx := Slot(key, capacity);
      BucketNamed(entries, capacity, idx);
      ls, found := buckets.Search(idx, key, name);
      j := FirstMatch(buckets.Table()[idx].nodes, key, name);
      FirstMatchSelected(entries, Belongs(capacity, idx), key, name);
    }

    /** hash_map_get */
    method Get(name: Name) returns (value: Option<V>)
      requires Valid() && IsName(name)
      ensures R.Step(myHash, entries, R.GetOp(name)).1 == R.Found(value)
    {
      var key, idx, ls, found, j := Locate(name);
      value := if found then Some(buckets.store[ls].value) else None;
    }

    /** The first part of hash_map_put: a match gets the new value. */
    method Overwrite(ls: RingLink, value: V, ghost s: nat, ghost idx: nat, ghost j: nat)
      requires Valid() && s < |entries| && idx == Index(entries[s].key, capacity)
      requires j == |Bucket(entries[..s], capacity, idx)| && buckets.IsAt(ls, idx, j)
      modifies this`entries, buckets`store
      ensures Valid() && entries == old(entries)[s := old(entries)[s].(value := value)]
      ensures buckets.store.Keys == old(buckets.store.Keys)
    {
      HoldsUpdate(buckets.Table(), capacity, count, entries, s, value);
      entries := entries[s := entries[s].(value := value)];
      buckets.Overwrite(ls, value, idx, j);
    }

    /** The last part of hash_map_put: a new node at the tail of its bucket. */
    method Append(key: int, name: Name, value: V)
      requires Valid() && IsName(name) && 4 * count < 3 * capacity
      modifies this`entries, this`count, buckets, buckets.heads, buckets.store.Keys
      ensures Valid() && entries == old(entries) + [Node(key, name, value)]
      ensures buckets.heads == old(buckets.heads) && fresh(buckets.store.Keys - old(buckets.store.Keys))
    {
      HoldsAppend(buckets.Table(), capacity, count, entries, Node(key, name, value));
      var idx := Slot(key, capacity);
      count := count + 1;
      entries := entries + [Node(key, name, value)];
      buckets.Append(idx, Node(key, name, value));
    }

    /** hash_map_del */
    method Del(name: Name) returns (found: bool)
      requires Valid() && IsName(name)
      modifies this`entries, this`count, buckets, buckets.heads, buckets.store.Keys
      ensures Valid() && (entries, R.Deleted(found)) == R.Step(myHash, old(entries), R.DelOp(name))
      ensures buckets.heads == old(buckets.heads) && buckets.store.Keys <= old(buckets.store.Keys)
    {
      var key, idx, ls, hit, j := Locate(name);
      found := hit;
      if found { Remove(ls, idx, FirstMatch(entries, key, name), j); }
    }

    /** The node found is unlinked and freed. */
    method Remove(ls: RingLink, idx: nat, ghost s: nat, ghost j: nat)
      requires Valid() && s < |entries| && idx == Index(entries[s].key, capacity)
      requires j == |Bucket(entries[..s], capacity, idx)| && buckets.IsAt(ls, idx, j)
      modifies this`entries, this`count, buckets, buckets.heads, buckets.store.Keys
      ensures Valid() && entries == Without(old(entries), s)
      ensures buckets.heads == old(buckets.heads) && buckets.store.Keys <= old(buckets.store.Keys)
    {
      HoldsWithout(buckets.Table(), capacity, count, entries, s);
      count := count - 1;
      entries := Without(entries, s);
      buckets.Remove(ls, idx, j);
    }

    /** hash_map_resize */
    method Resize()
      requires Valid()
      modifies this`capacity, buckets, buckets.heads, buckets.store.Keys
      ensures Valid() && capacity == 2 * old(capacity) && buckets.store == old(buckets.store)
      ensures forall k :: 0 <= k < |buckets.heads| ==> buckets.heads[k] in old(buckets.heads) || fresh(buckets.heads[k])
    {
      var c := capacity;
      buckets.Double(entries);
      assert (2 * c) / 2 == c;
      buckets.SplitAll(c, entries);
      capacity := 2 * c;
    }

    /** hash_map_put */
    method Put(name: Name, value: V)
      requires Valid() && IsName(name)
      modifies this`entries, this`count, this`capacity, buckets, buckets.heads, buckets.store.Keys
      ensures Valid() && entries == R.Step(myHash, old(entries), R.PutOp(name, value)).0
      ensures forall k :: 0 <= k < |buckets.heads| ==> buckets.heads[k] in old(buckets.heads) || fresh(buckets.heads[k])
      ensures fresh(buckets.store.Keys - old(buckets.store.Keys))
    {
      var key, idx, ls, found, j := Locate(name);
      if found { Overwrite(ls, value, FirstMatch(entries, key, name), idx, j); } else { Insert(key, name, value); }
    }

    /** hash_map_put of a name without a match: resize where the load factor is reached, then append. */
    method Insert(key: int, name: Name, value: V)
      requires Valid() && IsName(name)
      modifies this`entries, this`count, this`capacity, buckets, buckets.heads, buckets.store.Keys
      ensures Valid() && entries == old(entries) + [Node(key, name, value)]
      ensures capacity == if 4 * old(count) >= 3 * old(capacity) then 2 * old(capacity) else old(capacity)
      ensures forall k :: 0 <= k < |buckets.heads| ==> buckets.heads[k] in old(buckets.heads) || fresh(buckets.heads[k])
      ensures fresh(buckets.store.Keys - old(buckets.store.Keys))
    {
      if 4 * count >= 3 * capacity { Resize(); }
      Append(key, name, value);
    }

    /** hash_map_size */
    method Size() returns (n: nat)
      requires Valid()
      ensures R.Size(n) == R.Step(myHash, entries, R.SizeOp).1
    {
      n := count;
    }

    /** hash_map_clearall: every node is freed and, with `all`, the buckets too. */
    method ClearAll(all: bool)
      requires Valid()
      modifies this`entries, this`count, this`capacity, buckets, buckets.heads, buckets.store.Keys
      ensures count == 0 && entries == R.Step(myHash, old(entries), R.ClearOp).0 && buckets.Valid()
      ensures if all then capacity == 0 && buckets.Table() == [] else Valid() && capacity == old(capacity)
      ensures buckets.heads == (if all then [] else old(buckets.heads)) && buckets.store.Keys <= old(buckets.store.Keys)
    {
      var c := capacity;
      ClearingStart(buckets.Table(), c, count, entries, all);
      ClearBuckets(c, entries, all);
      ClearingEnd(buckets.Table(), c, count, entries, all);
      entries := [];
      if all { capacity := 0; }
    }

    method ClearBuckets(c: nat, ghost nodes: seq<Node<V>>, all: bool)
      requires c > 0 && buckets.Valid() && Clearing(buckets.Table(), c, count, nodes, c, all)
      modifies this`count, buckets, buckets.heads, buckets.store.Keys
      ensures buckets.Valid() && Clearing(buckets.Table(), c, count, nodes, 0, all)
      ensures buckets.heads == (if all then [] else old(buckets.heads)) && buckets.store.Keys <= old(buckets.store.Keys)
    {
      var i: nat := c;
      while i > 0
        invariant i <= c && buckets.Valid() && Clearing(buckets.Table(), c, count, nodes, i, all)
        invariant i <= |old(buckets.heads)|
        invariant buckets.heads == if all then old(buckets.heads)[..i] else old(buckets.heads)
        invariant buckets.store.Keys <= old(buckets.store.Keys)
      {
        i := i - 1;
        ghost var hs := old(buckets.heads);
        assert all ==> hs[..i + 1][..i] == hs[..i];
        ClearOne(i, c, nodes, all);
      }
    }

    method ClearOne(i: nat, c: nat, ghost nodes: seq<Node<V>>, all: bool)
      requires c > 0 && buckets.Valid() && Clearing(buckets.Table(), c, count, nodes, i + 1, all)
      modifies this`count, buckets, buckets.heads, buckets.store.Keys
      ensures buckets.Valid() && Clearing(buckets.Table(), c, count, nodes, i, all)
      ensures |old(buckets.heads)| >= i
      ensures buckets.heads == if all then old(buckets.heads)[..i] else old(buckets.heads)
      ensures buckets.store.Keys <= old(buckets.store.Keys)
    {
      ClearingNext(buckets.Table(), c, count, nodes, i, all);
      var freed := buckets.Clear(i, all);
      count := count - freed;
    }
  }
}
