/**
 What hash_map.c computes, without buckets: a list of nodes in insertion order, searched for
 the first node with the same hash whose name starts with the name asked for.  Against it
 stands the finite map a caller expects; the two agree exactly on prefix-free key sets.
 */
module HashSpec {
  import opened Common
  import opened Residue

  // ---- names, hashes and comparison

  /** The characters of a string, without its terminator. */
  type Name = seq<int>

  /** What can stand before a terminator: signed characters other than NUL. */
  ghost predicate IsName(s: Name) {
    forall i :: 0 <= i < |s| ==> -128 <= s[i] < 128 && s[i] != 0
  }

  /** The low 32 bits of a number, read as a signed int. */
  function Wrap(x: int): int {
    (x + 0x8000_0000) % 0x1_0000_0000 - 0x8000_0000
  }

  /** string_hash */
  function StringHash(s: seq<int>): int {
    if s == [] then 0 else Wrap(StringHash(s[..|s| - 1]) * 31 + s[|s| - 1])
  }

  /** The polynomial behind it. */
  function Poly(s: seq<int>): int {
    if s == [] then 0 else Poly(s[..|s| - 1]) * 31 + s[|s| - 1]
  }

  lemma WrapIsCongruent(x: int) returns (k: int)
    ensures Wrap(x) == x + 0x1_0000_0000 * k
  {
    k := -((x + 0x8000_0000) / 0x1_0000_0000);
  }

  lemma WrapOfCongruent(x: int, k: int)
    ensures Wrap(x + 0x1_0000_0000 * k) == Wrap(x)
  {
    var m, y := 0x1_0000_0000, x + 0x8000_0000;
    UniqueRemainder(m, (y + m * k) / m, (y + m * k) % m, y / m + k, y % m);
  }

  /** Wrapping after every character is the same as wrapping once at the end. */
  lemma {:induction false} HashIsWrappedPolynomial(s: seq<int>)
    ensures StringHash(s) == Wrap(Poly(s))
    decreases |s|
  {
    if s != [] {
      var t, c := s[..|s| - 1], s[|s| - 1];
      HashIsWrappedPolynomial(t);
      var k := WrapIsCongruent(Poly(t));
      WrapOfCongruent(Poly(s), 31 * k);
    }
  }

  /** The character at a position of a NUL-terminated string. */
  function At(s: seq<int>, i: nat): int { if i < |s| then s[i] else 0 }

  /** strncmp(a, b, n) == 0, comparing from position i on. */
  predicate StrnEqual(a: seq<int>, b: seq<int>, n: nat, i: nat)
    decreases n - i
  {
    i >= n || (At(a, i) == At(b, i) && (At(a, i) == 0 || StrnEqual(a, b, n, i + 1)))
  }

  ghost predicate SameFrom(a: Name, b: Name, i: nat) {
    i < |a| ==> |a| <= |b| && forall j :: i <= j < |a| ==> a[j] == b[j]
  }

  lemma {:induction false} StrnEqualFrom(a: Name, b: Name, i: nat)
    requires i <= |a| && IsName(a) && IsName(b)
    ensures StrnEqual(a, b, |a|, i) <==> SameFrom(a, b, i)
    decreases |a| - i
  {
    if i < |a| {
      StrnEqualFrom(a, b, i + 1);
      assert At(a, i) == a[i] != 0;
      assert At(b, i) == a[i] <==> i < |b| && a[i] == b[i];
      assert SameFrom(a, b, i) <==> i < |b| && a[i] == b[i] && SameFrom(a, b, i + 1);
    }
  }

  /** Comparing the length of the query only accepts every name it is a prefix of. */
  lemma ComparesPrefix(a: Name, b: Name)
    requires IsName(a) && IsName(b)
    ensures StrnEqual(a, b, |a|, 0) <==> a <= b
  {
    StrnEqualFrom(a, b, 0);
  }

  // ---- bucket numbers

  predicate PowerOfTwo(c: nat) { c == 1 || (c > 1 && c % 2 == 0 && PowerOfTwo(c / 2)) }

  /** x & (c - 1) for a power of two, bit by bit; x may be negative. */
  function Masked(x: int, c: nat): int
    requires PowerOfTwo(c)
    decreases c
  {
    if c == 1 then 0 else x % 2 + 2 * Masked(x / 2, c / 2)
  }

  function Index(key: int, c: nat): (i: nat)
    requires c > 0
    ensures i < c
  {
    key % c
  }

  lemma IndexIs(key: int, c: nat, q: int, r: nat)
    requires r < c && key == c * q + r
    ensures Index(key, c) == r
  {
    UniqueRemainder(c, q, r, key / c, key % c);
  }

  lemma LowBitFirst(x: int, h: nat)
    requires h > 0
    ensures Index(x, 2 * h) == x % 2 + 2 * Index(x / 2, h)
  {
    var y := x / 2;
    var q, r := y / h, Index(y, h);
    assert (2 * h) * q == 2 * (h * q);
    IndexIs(x, 2 * h, q, 2 * r + x % 2);
  }

  lemma {:induction false} MaskIsIndex(x: int, c: nat)
    requires PowerOfTwo(c)
    ensures Masked(x, c) == Index(x, c)
    decreases c
  {
    if c == 1 {
      IndexIs(x, 1, x, 0);
    } else {
      MaskIsIndex(x / 2, c / 2);
      LowBitFirst(x, c / 2);
      assert c == 2 * (c / 2);
    }
  }

  /** With twice as many buckets, bucket i divides into i and i + c. */
  lemma IndexDoubled(key: int, c: nat)
    requires c > 0
    ensures Index(key, 2 * c) == Index(key, c) || Index(key, 2 * c) == Index(key, c) + c
  {
    var r, q := Index(key, 2 * c), key / (2 * c);
    assert key == (2 * c) * q + r;
    assert (2 * c) * q == c * (2 * q);
    if r < c {
      IndexIs(key, c, 2 * q, r);
    } else {
      assert c * (2 * q + 1) == c * (2 * q) + c;
      IndexIs(key, c, 2 * q + 1, r - c);
    }
  }

  lemma BelongsBefore(key: int, c: nat, k: nat)
    requires c > 0 && k < 2 * c && Index(key, 2 * c) == k
    ensures Index(key, c) == if k < c then k else k - c
  {
    IndexDoubled(key, c);
  }

  // ---- the list of nodes

  datatype Node<V> = Node(key: int, name: Name, value: V)

  predicate Matches<V>(n: Node<V>, key: int, name: Name) { n.key == key && name <= n.name }

  /** The position of the first match, or the length when there is none. */
  function FirstMatch<V>(nodes: seq<Node<V>>, key: int, name: Name): (r: nat)
    ensures r <= |nodes| && (r < |nodes| ==> Matches(nodes[r], key, name))
    ensures forall j :: 0 <= j < r ==> !Matches(nodes[j], key, name)
  {
    if nodes == [] || Matches(nodes[0], key, name) then 0 else 1 + FirstMatch(nodes[1..], key, name)
  }

  lemma FirstMatchIs<V>(nodes: seq<Node<V>>, key: int, name: Name, r: nat)
    requires r <= |nodes| && (r < |nodes| ==> Matches(nodes[r], key, name))
    requires forall j :: 0 <= j < r ==> !Matches(nodes[j], key, name)
    ensures r == FirstMatch(nodes, key, name)
  {}

  function Get<V>(nodes: seq<Node<V>>, key: int, name: Name): Option<V> {
    var r := FirstMatch(nodes, key, name);
    if r < |nodes| then Some(nodes[r].value) else None
  }

  function Put<V>(nodes: seq<Node<V>>, key: int, name: Name, value: V): seq<Node<V>> {
    var r := FirstMatch(nodes, key, name);
    if r < |nodes| then nodes[r := nodes[r].(value := value)] else nodes + [Node(key, name, value)]
  }

  function Del<V>(nodes: seq<Node<V>>, key: int, name: Name): seq<Node<V>> {
    var r := FirstMatch(nodes, key, name);
    if r < |nodes| then Without(nodes, r) else nodes
  }

  // ---- buckets of the list

  /** The nodes whose hash satisfies p, in order. */
  function Select<V>(nodes: seq<Node<V>>, p: int -> bool): seq<Node<V>> {
    if nodes == [] then []
    else
      var n := |nodes| - 1;
      Select(nodes[..n], p) + if p(nodes[n].key) then [nodes[n]] else []
  }

  function Belongs(c: nat, i: nat): int -> bool
    requires c > 0
  {
    key => Index(key, c) == i
  }

  /** Bucket i of c. */
  function Bucket<V>(nodes: seq<Node<V>>, c: nat, i: nat): seq<Node<V>>
    requires c > 0
  {
    Select(nodes, Belongs(c, i))
  }

  lemma {:induction false} SelectSnoc<V>(nodes: seq<Node<V>>, n: Node<V>, p: int -> bool)
    ensures Select(nodes + [n], p) == Select(nodes, p) + if p(n.key) then [n] else []
  {
    assert (nodes + [n])[..|nodes|] == nodes;
  }

  lemma {:induction false} SelectMember<V>(nodes: seq<Node<V>>, p: int -> bool, k: nat)
    requires k < |Select(nodes, p)|
    ensures p(Select(nodes, p)[k].key) && Select(nodes, p)[k] in nodes
    decreases |nodes|
  {
    var m := |nodes| - 1;
    if k < |Select(nodes[..m], p)| { SelectMember(nodes[..m], p, k); }
  }

  lemma {:induction false} SelectSplit<V>(a: seq<Node<V>>, b: seq<Node<V>>, p: int -> bool)
    ensures Select(a + b, p) == Select(a, p) + Select(b, p)
    decreases |b|
  {
    if b == [] {
      assert a + b == a;
    } else {
      var m := |b| - 1;
      SelectSplit(a, b[..m], p);
      assert a + b == (a + b[..m]) + [b[m]] && b == b[..m] + [b[m]];
      SelectSnoc(a + b[..m], b[m], p);
    }
  }

  lemma {:induction false} SelectAround<V>(a: seq<Node<V>>, n: Node<V>, b: seq<Node<V>>, p: int -> bool)
    ensures Select(a + [n] + b, p) == Select(a, p) + (if p(n.key) then [n] else []) + Select(b, p)
  {
    SelectSplit(a + [n], b, p);
    SelectSnoc(a, n, p);
  }

  /** A selection is what lies before a position, the node there if it belongs, and what lies after. */
  lemma {:induction false} AroundPosition<V>(nodes: seq<Node<V>>, s: nat, p: int -> bool)
    requires s < |nodes|
    ensures Select(nodes, p) ==
            Select(nodes[..s], p) + (if p(nodes[s].key) then [nodes[s]] else []) + Select(nodes[s + 1..], p)
  {
    assert nodes == nodes[..s] + [nodes[s]] + nodes[s + 1..];
    SelectAround(nodes[..s], nodes[s], nodes[s + 1..], p);
  }

  lemma {:induction false} NoMatchSelected<V>(nodes: seq<Node<V>>, p: int -> bool, key: int, name: Name)
    requires forall j :: 0 <= j < |nodes| ==> !Matches(nodes[j], key, name)
    ensures forall j :: 0 <= j < |Select(nodes, p)| ==> !Matches(Select(nodes, p)[j], key, name)
    decreases |nodes|
  {
    if nodes != [] { NoMatchSelected(nodes[..|nodes| - 1], p, key, name); }
  }

  /** The first match of the whole list is the first match of its bucket. */
  lemma {:induction false} FirstMatchSelected<V>(nodes: seq<Node<V>>, p: int -> bool, key: int, name: Name)
    requires p(key)
    ensures var s, b := FirstMatch(nodes, key, name), Select(nodes, p);
            var r := FirstMatch(b, key, name);
            if s < |nodes| then r == |Select(nodes[..s], p)| < |b| && b[r] == nodes[s] else r == |b|
  {
    var s, b := FirstMatch(nodes, key, name), Select(nodes, p);
    var before := nodes[..s];
    NoMatchSelected(before, p, key, name);
    if s < |nodes| {
      AroundPosition(nodes, s, p);
      FirstMatchIs(b, key, name, |Select(before, p)|);
    } else {
      assert before == nodes;
      FirstMatchIs(b, key, name, |b|);
    }
  }

  /** Replacing a node by one with the same hash replaces it in its bucket and nowhere else. */
  lemma {:induction false} SelectUpdate<V>(nodes: seq<Node<V>>, s: nat, n: Node<V>, p: int -> bool)
    requires s < |nodes| && n.key == nodes[s].key
    ensures var b, r := Select(nodes, p), |Select(nodes[..s], p)|;
            if p(n.key) then r < |b| && Select(nodes[s := n], p) == b[r := n] else Select(nodes[s := n], p) == b
  {
    AroundPosition(nodes, s, p);
    AroundPosition(nodes[s := n], s, p);
    assert nodes[s := n][..s] == nodes[..s] && nodes[s := n][s + 1..] == nodes[s + 1..];
  }

  lemma {:induction false} SelectWithout<V>(nodes: seq<Node<V>>, s: nat, p: int -> bool)
    requires s < |nodes|
    ensures var b, r := Select(nodes, p), |Select(nodes[..s], p)|;
            if p(nodes[s].key) then r < |b| && Select(Without(nodes, s), p) == Without(b, r)
            else Select(Without(nodes, s), p) == b
  {
    AroundPosition(nodes, s, p);
    SelectSplit(nodes[..s], nodes[s + 1..], p);
  }

  lemma {:induction false} SelectSelect<V>(nodes: seq<Node<V>>, p: int -> bool, q: int -> bool)
    requires forall key :: q(key) ==> p(key)
    ensures Select(Select(nodes, p), q) == Select(nodes, q)
    decreases |nodes|
  {
    if nodes != [] {
      var m := |nodes| - 1;
      SelectSelect(nodes[..m], p, q);
      if p(nodes[m].key) {
        SelectSnoc(Select(nodes[..m], p), nodes[m], q);
      } else {
        assert Select(nodes, p) == Select(nodes[..m], p) && Select(nodes, q) == Select(nodes[..m], q);
      }
    }
  }

  /** Doubling: the new bucket k holds those of the old bucket k mod c that belong there, in order. */
  lemma {:induction false} BucketOfBucket<V>(nodes: seq<Node<V>>, c: nat, k: nat)
    requires c > 0 && k < 2 * c
    ensures Bucket(nodes, 2 * c, k) == Bucket(Bucket(nodes, c, if k < c then k else k - c), 2 * c, k)
  {
    var i := if k < c then k else k - c;
    forall key | Belongs(2 * c, k)(key) ensures Belongs(c, i)(key) { BelongsBefore(key, c, k); }
    SelectSelect(nodes, Belongs(c, i), Belongs(2 * c, k));
  }

  /** The sizes of the first k buckets of c, added up. */
  function Total<V>(nodes: seq<Node<V>>, c: nat, k: nat): nat
    requires c > 0
  {
    if k == 0 then 0 else Total(nodes, c, k - 1) + |Bucket(nodes, c, k - 1)|
  }

  lemma {:induction false} TotalSnoc<V>(nodes: seq<Node<V>>, n: Node<V>, c: nat, k: nat)
    requires c > 0
    ensures Total(nodes + [n], c, k) == Total(nodes, c, k) + if Index(n.key, c) < k then 1 else 0
    decreases k
  {
    if k > 0 {
      TotalSnoc(nodes, n, c, k - 1);
      SelectSnoc(nodes, n, Belongs(c, k - 1));
    }
  }

  lemma {:induction false} TotalEmpty<V>(c: nat, k: nat)
    requires c > 0
    ensures Total<V>([], c, k) == 0
    decreases k
  {
    if k > 0 { TotalEmpty<V>(c, k - 1); }
  }

  /** Every node is in exactly one bucket: the bucket sizes add up to the number of nodes. */
  lemma {:induction false} BucketsAddUp<V>(nodes: seq<Node<V>>, c: nat)
    requires c > 0
    ensures Total(nodes, c, c) == |nodes|
    decreases |nodes|
  {
    if nodes == [] {
      TotalEmpty<V>(c, c);
    } else {
      var m := |nodes| - 1;
      BucketsAddUp(nodes[..m], c);
      assert nodes == nodes[..m] + [nodes[m]];
      TotalSnoc(nodes[..m], nodes[m], c, c);
    }
  }
}
