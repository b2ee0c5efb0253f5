/**
 The table of hash_map.c as a value: what its buckets hold of a list of nodes, and how that
 changes when a node is changed, added, removed, or moved while the table doubles.
 */
module HashTable {
  import opened Common
  import opened HashSpec

  const INITIAL_CAPACITY: nat := 16

  datatype Head<V> = Head(nodes: seq<Node<V>>, count: int)

  /** A bucket whose counter is right. */
  function Full<V>(nodes: seq<Node<V>>): Head<V> { Head(nodes, |nodes|) }

  /** Every bucket holds its nodes of the list, in the order of the list. */
  ghost predicate Laid<V>(table: seq<Head<V>>, c: nat, nodes: seq<Node<V>>) {
    c > 0 && |table| == c && forall i :: 0 <= i < c ==> table[i] == Full(Bucket(nodes, c, i))
  }

  ghost predicate AllNamed<V>(nodes: seq<Node<V>>) {
    forall i :: 0 <= i < |nodes| ==> IsName(nodes[i].name)
  }

  lemma {:induction false} BucketNamed<V>(nodes: seq<Node<V>>, c: nat, i: nat)
    requires AllNamed(nodes) && c > 0
    ensures AllNamed(Bucket(nodes, c, i))
  {
    forall k | 0 <= k < |Bucket(nodes, c, i)| ensures IsName(Bucket(nodes, c, i)[k].name) {
      SelectMember(nodes, Belongs(c, i), k);
    }
  }

  lemma {:induction false} LaidUpdate<V>(table: seq<Head<V>>, c: nat, nodes: seq<Node<V>>, s: nat, n: Node<V>)
    requires Laid(table, c, nodes) && s < |nodes| && n.key == nodes[s].key
    ensures var i := Index(n.key, c);
            var r := |Bucket(nodes[..s], c, i)|;
            r < |table[i].nodes| && Laid(table[i := Full(table[i].nodes[r := n])], c, nodes[s := n])
  {
    forall k | 0 <= k < c
      ensures var b, r := Bucket(nodes, c, k), |Bucket(nodes[..s], c, k)|;
              if Index(n.key, c) == k then r < |b| && Bucket(nodes[s := n], c, k) == b[r := n]
              else Bucket(nodes[s := n], c, k) == b
    {
      SelectUpdate(nodes, s, n, Belongs(c, k));
    }
  }

  lemma {:induction false} LaidWithout<V>(table: seq<Head<V>>, c: nat, nodes: seq<Node<V>>, s: nat)
    requires Laid(table, c, nodes) && s < |nodes|
    ensures var i := Index(nodes[s].key, c);
            var r := |Bucket(nodes[..s], c, i)|;
            r < |table[i].nodes| && Laid(table[i := Full(Without(table[i].nodes, r))], c, Without(nodes, s))
  {
    forall k | 0 <= k < c
      ensures var b, r := Bucket(nodes, c, k), |Bucket(nodes[..s], c, k)|;
              if Index(nodes[s].key, c) == k then r < |b| && Bucket(Without(nodes, s), c, k) == Without(b, r)
              else Bucket(Without(nodes, s), c, k) == b
    {
      SelectWithout(nodes, s, Belongs(c, k));
    }
  }

  lemma {:induction false} LaidAppend<V>(table: seq<Head<V>>, c: nat, nodes: seq<Node<V>>, n: Node<V>)
    requires Laid(table, c, nodes)
    ensures var i := Index(n.key, c);
            Laid(table[i := Full(table[i].nodes + [n])], c, nodes + [n])
  {
    forall k | 0 <= k < c
      ensures Bucket(nodes + [n], c, k) == Bucket(nodes, c, k) + if Index(n.key, c) == k then [n] else []
    {
      SelectSnoc(nodes, n, Belongs(c, k));
    }
  }

  /** string_hash: its loop wraps after every character, its result is the polynomial wrapped once. */
  method ComputeStringHash(name: Name) returns (key: int)
    ensures key == StringHash(name) == Wrap(Poly(name))
  {
    key := 0;
    for i := 0 to |name|
      invariant key == StringHash(name[..i])
    {
      key := Wrap(key * 31 + name[i]);
      assert name[..i + 1][..i] == name[..i];
    }
    assert name[..|name|] == name;
    HashIsWrappedPolynomial(name);
  }

  /** The bucket of a hash: key & (capacity - 1). */
  method Slot(key: int, c: nat) returns (idx: nat)
    requires PowerOfTwo(c)
    ensures idx == Index(key, c)
  {
    MaskIsIndex(key, c);
    idx := Masked(key, c);
  }

  /** Room below the load bound is room for one more: capacities are multiples of four. */
  lemma RoomForOne(count: int, c: nat)
    requires PowerOfTwo(c) && c >= INITIAL_CAPACITY && 4 * count < 3 * c
    ensures 4 * (count + 1) <= 3 * c
  {
    assert PowerOfTwo(c / 2);
    assert c % 4 == 0;
  }

  ghost predicate AllAt<V>(nodes: seq<Node<V>>, c: nat, i: nat)
    requires c > 0
  {
    forall k :: 0 <= k < |nodes| ==> Index(nodes[k].key, c) == i
  }

  lemma {:induction false} BucketBelongs<V>(nodes: seq<Node<V>>, c: nat, i: nat)
    requires c > 0
    ensures AllAt(Bucket(nodes, c, i), c, i)
  {
    forall k | 0 <= k < |Bucket(nodes, c, i)| ensures Index(Bucket(nodes, c, i)[k].key, c) == i {
      SelectMember(nodes, Belongs(c, i), k);
    }
  }

  // ---- the states of a resize

  /** Node j of bucket i taken off and put at the tail of bucket k. */
  function Moved<V>(table: seq<Head<V>>, i: nat, j: nat, k: nat): seq<Head<V>>
    requires i < |table| && k < |table| && i != k && j < |table[i].nodes|
  {
    table[i := Head(Without(table[i].nodes, j), table[i].count - 1)]
         [k := Head(table[k].nodes + [table[i].nodes[j]], table[k].count + 1)]
  }

  /** Table t with the first p nodes b[..p] of bucket i distributed over i and i + c. */
  ghost predicate Splitting<V>(t: seq<Head<V>>, table: seq<Head<V>>, b: seq<Node<V>>, c: nat, i: nat, p: nat)
    requires c > 0 && p <= |b|
  {
    && |table| == |t| == 2 * c && i < c
    && table[i] == Full(Bucket(b[..p], 2 * c, i) + b[p..])
    && table[i + c] == Full(Bucket(b[..p], 2 * c, i + c))
    && forall k :: 0 <= k < 2 * c && k != i && k != i + c ==> table[k] == t[k]
  }

  /** ... with the loop at node j of what is left in bucket i. */
  ghost predicate SplitAt<V>(t: seq<Head<V>>, table: seq<Head<V>>, b: seq<Node<V>>, c: nat, i: nat, p: nat, j: nat)
    requires c > 0 && p <= |b|
  {
    Splitting(t, table, b, c, i, p) && j == |Bucket(b[..p], 2 * c, i)|
  }

  lemma {:induction false} SplitStart<V>(t: seq<Head<V>>, b: seq<Node<V>>, c: nat, i: nat)
    requires c > 0 && |t| == 2 * c && i < c && t[i] == Full(b) && t[i + c] == Full([])
    ensures SplitAt(t, t, b, c, i, 0, 0)
  {
    assert b[..0] == [] && b[0..] == b;
  }

  lemma {:induction false} SplitLeft<V>(
      t: seq<Head<V>>, table: seq<Head<V>>, b: seq<Node<V>>, c: nat, i: nat, p: nat, j: nat)
    requires c > 0 && p <= |b| && SplitAt(t, table, b, c, i, p, j)
    ensures |table| == 2 * c && i < c && (j < |table[i].nodes| <==> p < |b|)
  {}

  lemma {:induction false} SplitOne<V>(b: seq<Node<V>>, c: nat, i: nat, p: nat)
    requires c > 0 && i < c && p < |b| && Index(b[p].key, c) == i
    ensures var kept, moved := Bucket(b[..p], 2 * c, i), Bucket(b[..p], 2 * c, i + c);
            var n, idx := b[p], Index(b[p].key, 2 * c);
            && (idx == i || idx == i + c)
            && Bucket(b[..p + 1], 2 * c, i) == kept + (if idx == i then [n] else [])
            && Bucket(b[..p + 1], 2 * c, i + c) == moved + (if idx == i then [] else [n])
            && kept + b[p..] == kept + [n] + b[p + 1..]
            && Without(kept + b[p..], |kept|) == kept + b[p + 1..]
  {
    IndexDoubled(b[p].key, c);
    assert b[..p + 1] == b[..p] + [b[p]];
    SelectSnoc(b[..p], b[p], Belongs(2 * c, i));
    SelectSnoc(b[..p], b[p], Belongs(2 * c, i + c));
  }

  lemma {:induction false} SplitNext<V>(
      t: seq<Head<V>>, table: seq<Head<V>>, b: seq<Node<V>>, c: nat, i: nat, p: nat, j: nat)
    requires c > 0 && p < |b| && SplitAt(t, table, b, c, i, p, j) && AllAt(b, c, i)
    ensures var idx := Index(b[p].key, 2 * c);
            && j < |table[i].nodes| && table[i].nodes[j] == b[p]
            && if idx == i then SplitAt(t, table, b, c, i, p + 1, j + 1)
               else SplitAt(t, Moved(table, i, j, idx), b, c, i, p + 1, j)
  {
    SplitOne(b, c, i, p);
    assert table[i].nodes[j] == b[p];
  }

  /** All buckets of c. */
  ghost function AllBuckets<V>(nodes: seq<Node<V>>, c: nat): (r: seq<seq<Node<V>>>)
    requires c > 0
    ensures |r| == c && forall k :: 0 <= k < c ==> r[k] == Bucket(nodes, c, k)
  {
    seq(c, k requires 0 <= k < c => Bucket(nodes, c, k))
  }

  /** The table when the first i of c buckets have been divided: new ones there, old ones and nothing elsewhere. */
  ghost predicate HalfDone<V>(table: seq<Head<V>>, was: seq<seq<Node<V>>>, goal: seq<seq<Node<V>>>, c: nat, i: nat) {
    && |table| == |goal| == 2 * c && |was| == c && i <= c
    && forall k :: 0 <= k < |table| ==>
         table[k] == Full(if k < i || c <= k < c + i then goal[k] else if k < c then was[k] else [])
  }

  ghost predicate Halfway<V>(table: seq<Head<V>>, nodes: seq<Node<V>>, c: nat, i: nat) {
    c > 0 && HalfDone(table, AllBuckets(nodes, c), AllBuckets(nodes, 2 * c), c, i)
  }

  lemma {:induction false} HalfDoneNext<V>(
      t: seq<Head<V>>, table: seq<Head<V>>, was: seq<seq<Node<V>>>, goal: seq<seq<Node<V>>>, c: nat, i: nat)
    requires HalfDone(t, was, goal, c, i) && i < c && |table| == |t|
    requires table[i] == Full(goal[i]) && table[i + c] == Full(goal[i + c])
    requires forall k :: 0 <= k < |t| && k != i && k != i + c ==> table[k] == t[k]
    ensures HalfDone(table, was, goal, c, i + 1)
  {}

  /** The two buckets that bucket i has been divided into. */
  lemma {:induction false} DividedPair<V>(t: seq<Head<V>>, table: seq<Head<V>>, nodes: seq<Node<V>>, c: nat, i: nat)
    requires c > 0 && i < c && i < |t| && t[i] == Full(Bucket(nodes, c, i))
    requires Splitting(t, table, t[i].nodes, c, i, |t[i].nodes|)
    ensures table[i] == Full(Bucket(nodes, 2 * c, i)) && table[i + c] == Full(Bucket(nodes, 2 * c, i + c))
  {
    var b := t[i].nodes;
    assert b[..|b|] == b && b[|b|..] == [];
    assert Bucket(b, 2 * c, i) + [] == Bucket(b, 2 * c, i);
    BucketOfBucket(nodes, c, i);
    BucketOfBucket(nodes, c, i + c);
  }

  lemma {:induction false} HalfwayNext<V>(t: seq<Head<V>>, table: seq<Head<V>>, nodes: seq<Node<V>>, c: nat, i: nat)
    requires Halfway(t, nodes, c, i) && i < c && Splitting(t, table, t[i].nodes, c, i, |t[i].nodes|)
    ensures Halfway(table, nodes, c, i + 1)
  {
    DividedPair(t, table, nodes, c, i);
    HalfDoneNext(t, table, AllBuckets(nodes, c), AllBuckets(nodes, 2 * c), c, i);
  }

  // ---- a whole map

  /** The table of a map with these nodes: a power of two of buckets, loaded to three quarters at most. */
  ghost predicate Holds<V>(table: seq<Head<V>>, c: nat, count: int, nodes: seq<Node<V>>) {
    && PowerOfTwo(c) && c >= INITIAL_CAPACITY
    && Laid(table, c, nodes) && count == |nodes| && 4 * count <= 3 * c
    && AllNamed(nodes)
  }

  /** Position j of bucket idx is the first match of the whole list, or the end when there is none. */
  ghost predicate LocatedAt<V>(
      table: seq<Head<V>>, c: nat, nodes: seq<Node<V>>, key: int, name: Name, idx: nat, j: nat, found: bool)
    requires c > 0 && idx < |table|
  {
    var s := FirstMatch(nodes, key, name);
    && (found <==> s < |nodes|)
    && (found ==> j == |Bucket(nodes[..s], c, idx)| < |table[idx].nodes| && table[idx].nodes[j] == nodes[s])
  }

  lemma {:induction false} HoldsUpdate<V>(
      table: seq<Head<V>>, c: nat, count: int, nodes: seq<Node<V>>, s: nat, value: V)
    requires Holds(table, c, count, nodes) && s < |nodes|
    ensures var i := Index(nodes[s].key, c);
            var j := |Bucket(nodes[..s], c, i)|;
            && j < |table[i].nodes| && table[i].nodes[j] == nodes[s]
            && var n := nodes[s].(value := value);
               Holds(table[i := Head(table[i].nodes[j := n], table[i].count)], c, count, nodes[s := n])
  {
    AroundPosition(nodes, s, Belongs(c, Index(nodes[s].key, c)));
    LaidUpdate(table, c, nodes, s, nodes[s].(value := value));
  }

  lemma {:induction false} HoldsAppend<V>(table: seq<Head<V>>, c: nat, count: int, nodes: seq<Node<V>>, n: Node<V>)
    requires Holds(table, c, count, nodes) && IsName(n.name) && 4 * count < 3 * c
    ensures var i := Index(n.key, c);
            Holds(table[i := Head(table[i].nodes + [n], table[i].count + 1)], c, count + 1, nodes + [n])
  {
    LaidAppend(table, c, nodes, n);
    RoomForOne(count, c);
  }

  lemma {:induction false} HoldsWithout<V>(table: seq<Head<V>>, c: nat, count: int, nodes: seq<Node<V>>, s: nat)
    requires Holds(table, c, count, nodes) && s < |nodes|
    ensures var i := Index(nodes[s].key, c);
            var j := |Bucket(nodes[..s], c, i)|;
            && j < |table[i].nodes|
            && Holds(table[i := Head(Without(table[i].nodes, j), table[i].count - 1)], c, count - 1, Without(nodes, s))
  {
    LaidWithout(table, c, nodes, s);
    forall k | 0 <= k < |Without(nodes, s)| ensures IsName(Without(nodes, s)[k].name) {
      assert Without(nodes, s)[k] == nodes[if k < s then k else k + 1];
    }
  }

  /** hash_map_clearall with the buckets from i on emptied and, with `all`, removed. */
  ghost predicate Clearing<V>(table: seq<Head<V>>, c: nat, count: int, nodes: seq<Node<V>>, i: nat, all: bool)
    requires c > 0
  {
    && i <= c && |table| == (if all then i else c) && count == Total(nodes, c, i)
    && forall k :: 0 <= k < |table| ==> table[k] == if k < i then Full(Bucket(nodes, c, k)) else Head([], 0)
  }

  lemma {:induction false} ClearingNext<V>(
      table: seq<Head<V>>, c: nat, count: int, nodes: seq<Node<V>>, i: nat, all: bool)
    requires c > 0 && Clearing(table, c, count, nodes, i + 1, all)
    ensures var t := table[i := Head([], 0)];
            && table[i] == Full(table[i].nodes) && (all ==> |table| == i + 1)
            && Clearing(if all then t[..i] else t, c, count - |table[i].nodes|, nodes, i, all)
  {}

  lemma {:induction false} ClearingStart<V>(table: seq<Head<V>>, c: nat, count: int, nodes: seq<Node<V>>, all: bool)
    requires Holds(table, c, count, nodes)
    ensures Clearing(table, c, count, nodes, c, all)
  {
    BucketsAddUp(nodes, c);
  }

  lemma {:induction false} ClearingEnd<V>(table: seq<Head<V>>, c: nat, count: int, nodes: seq<Node<V>>, all: bool)
    requires c > 0 && Clearing(table, c, count, nodes, 0, all)
    ensures count == 0 && if all then table == [] else PowerOfTwo(c) && c >= INITIAL_CAPACITY ==> Holds(table, c, 0, [])
  {}
}
