/**
 The buckets of hash_map.c on the heap: one ring of links per bucket, all sharing one set of
 links, each link embedded in a node.  Every operation rewrites `prev` and `next` pointers and
 is proved to do to the table of HashTable what its name says.
 */
module Buckets {
  import opened Common
  import opened HashSpec
  import opened HashTable
  import opened Links
  import Rings

  type RingLink = Rings.Node

  /** Every link on a list is embedded in a node. */
  ghost predicate Stored<V>(store: map<RingLink, Node<V>>, lists: seq<seq<RingLink>>) {
    forall i, k :: 0 <= i < |lists| && 0 <= k < |lists[i]| ==> lists[i][k] in store
  }

  ghost predicate AllIn<V>(store: map<RingLink, Node<V>>, l: seq<RingLink>) {
    forall k :: 0 <= k < |l| ==> l[k] in store
  }

  /** The nodes the links of a list are embedded in. */
  ghost function Read<V>(store: map<RingLink, Node<V>>, l: seq<RingLink>): (r: seq<Node<V>>)
    requires AllIn(store, l)
    ensures |r| == |l| && forall k :: 0 <= k < |l| ==> r[k] == store[l[k]]
  {
    seq(|l|, k requires 0 <= k < |l| => store[l[k]])
  }

  ghost function TableOf<V>(
      lists: seq<seq<RingLink>>, counts: seq<int>, store: map<RingLink, Node<V>>): (t: seq<Head<V>>)
    requires |lists| == |counts| && Stored(store, lists)
    ensures |t| == |lists|
    ensures forall i :: 0 <= i < |t| ==> AllIn(store, lists[i]) && t[i] == Head(Read(store, lists[i]), counts[i])
  {
    seq(|lists|, i requires 0 <= i < |lists| => Head(Read(store, lists[i]), counts[i]))
  }

  // ---- how the table follows the lists

  lemma TableUpdate<V>(
      lists: seq<seq<RingLink>>, counts: seq<int>, store: map<RingLink, Node<V>>, i: nat, j: nat, n: Node<V>)
    requires |lists| == |counts| && Stored(store, lists) && i < |lists| && j < |lists[i]|
    requires forall w :: 0 <= w < |lists| ==> Distinct(lists[w])
    requires forall w :: 0 <= w < |lists| && w != i ==> lists[i][j] !in lists[w]
    ensures var t := TableOf(lists, counts, store);
            TableOf(lists, counts, store[lists[i][j] := n]) == t[i := Head(t[i].nodes[j := n], t[i].count)]
  {
    var t, t' := TableOf(lists, counts, store), TableOf(lists, counts, store[lists[i][j] := n]);
    forall w | 0 <= w < |lists| ensures t'[w] == t[i := Head(t[i].nodes[j := n], t[i].count)][w] {
      if w == i { assert t'[w].nodes == t[i].nodes[j := n]; } else { assert t'[w].nodes == t[w].nodes; }
    }
  }

  lemma TableAppend<V>(
      lists: seq<seq<RingLink>>, counts: seq<int>, store: map<RingLink, Node<V>>, i: nat, l: RingLink, n: Node<V>)
    requires |lists| == |counts| && Stored(store, lists) && i < |lists| && l !in store
    ensures var lists', store' := lists[i := lists[i] + [l]], store[l := n];
            && Stored(store', lists')
            && var t := TableOf(lists, counts, store);
               TableOf(lists', counts[i := counts[i] + 1], store') == t[i := Head(t[i].nodes + [n], t[i].count + 1)]
  {
    var lists', counts', store' := lists[i := lists[i] + [l]], counts[i := counts[i] + 1], store[l := n];
    var t, t' := TableOf(lists, counts, store), TableOf(lists', counts', store');
    forall w | 0 <= w < |lists| ensures t'[w] == t[i := Head(t[i].nodes + [n], t[i].count + 1)][w] {
      if w == i { assert t'[w].nodes == t[i].nodes + [n]; } else { assert t'[w].nodes == t[w].nodes; }
    }
  }

  lemma TableRemove<V>(lists: seq<seq<RingLink>>, counts: seq<int>, store: map<RingLink, Node<V>>, i: nat, j: nat)
    requires |lists| == |counts| && Stored(store, lists) && i < |lists| && j < |lists[i]|
    requires Distinct(lists[i]) && forall w :: 0 <= w < |lists| && w != i ==> lists[i][j] !in lists[w]
    ensures var lists', store' := lists[i := Without(lists[i], j)], store - {lists[i][j]};
            && Stored(store', lists')
            && var t := TableOf(lists, counts, store);
               TableOf(lists', counts[i := counts[i] - 1], store') ==
                 t[i := Head(Without(t[i].nodes, j), t[i].count - 1)]
  {
    var l := lists[i][j];
    var lists', counts', store' := lists[i := Without(lists[i], j)], counts[i := counts[i] - 1], store - {l};
    forall w, k | 0 <= w < |lists'| && 0 <= k < |lists'[w]| ensures lists'[w][k] in store' {
      if w == i {
        assert lists'[w][k] == lists[i][if k < j then k else k + 1];
      } else {
        assert lists[w][k] in lists[w];
      }
    }
    var t, t' := TableOf(lists, counts, store), TableOf(lists', counts', store');
    forall w | 0 <= w < |lists| ensures t'[w] == t[i := Head(Without(t[i].nodes, j), t[i].count - 1)][w] {
      if w == i { assert t'[w].nodes == Without(t[i].nodes, j); } else { assert t'[w].nodes == t[w].nodes; }
    }
  }

  lemma TableMove<V>(lists: seq<seq<RingLink>>, counts: seq<int>, store: map<RingLink, Node<V>>, i: nat, j: nat, k: nat)
    requires |lists| == |counts| && Stored(store, lists) && i < |lists| && k < |lists| && i != k && j < |lists[i]|
    ensures var lists' := lists[i := Without(lists[i], j)][k := lists[k] + [lists[i][j]]];
            && Stored(store, lists')
            && TableOf(lists', counts[i := counts[i] - 1][k := counts[k] + 1], store) ==
               Moved(TableOf(lists, counts, store), i, j, k)
  {
    var lists' := lists[i := Without(lists[i], j)][k := lists[k] + [lists[i][j]]];
    var counts' := counts[i := counts[i] - 1][k := counts[k] + 1];
    var t, t' := TableOf(lists, counts, store), TableOf(lists', counts', store);
    forall w | 0 <= w < |lists| ensures t'[w] == Moved(t, i, j, k)[w] {
      if w == i {
        assert t'[w].nodes == Without(t[i].nodes, j);
      } else if w == k {
        assert t'[w].nodes == t[k].nodes + [t[i].nodes[j]];
      } else {
        assert t'[w].nodes == t[w].nodes;
      }
    }
  }

  lemma TableExtend<V>(lists: seq<seq<RingLink>>, counts: seq<int>, store: map<RingLink, Node<V>>)
    requires |lists| == |counts| && Stored(store, lists)
    ensures Stored(store, lists + [[]])
    ensures TableOf(lists + [[]], counts + [0], store) == TableOf(lists, counts, store) + [Head([], 0)]
  {
    var t, t' := TableOf(lists, counts, store), TableOf(lists + [[]], counts + [0], store);
    forall i | 0 <= i < |t'| ensures t'[i] == (t + [Head([], 0)])[i] {
      if i < |lists| { assert (lists + [[]])[i] == lists[i]; } else { assert t'[i].nodes == []; }
    }
  }

  lemma PrefixOfTable<V>(lists: seq<seq<RingLink>>, counts: seq<int>, store: map<RingLink, Node<V>>, n: nat)
    requires |lists| == |counts| && Stored(store, lists) && n <= |lists|
    ensures Stored(store, lists[..n]) && TableOf(lists[..n], counts[..n], store) == TableOf(lists, counts, store)[..n]
  {
    forall i, k | 0 <= i < n && 0 <= k < |lists[..n][i]| ensures lists[..n][i][k] in store {
      assert lists[i][k] in store;
    }
    var t, t' := TableOf(lists, counts, store), TableOf(lists[..n], counts[..n], store);
    forall i | 0 <= i < n ensures t'[i] == t[i] { assert lists[..n][i] == lists[i]; }
  }

  class Buckets<V> {
    var heads: seq<RingLink>               // map_head_t.head
    var counts: seq<int>                   // map_head_t.count
    var store: map<RingLink, Node<V>>      // list_to_map_node
    ghost var lists: seq<seq<RingLink>>

    /** Every list has a head and a counter, and every link a node. */
    ghost predicate Shaped()
      reads this
    {
      |lists| == |heads| == |counts| && Stored(store, lists)
    }

    ghost predicate Valid()
      reads this, heads, store.Keys
    {
      Shaped() && Rings.Family(heads, lists, store.Keys)
    }

    ghost function Table(): (t: seq<Head<V>>)
      requires Shaped()
      reads this
      ensures |t| == |heads|
    {
      TableOf(lists, counts, store)
    }

    /** The link is the one at position j of bucket i. */
    ghost predicate IsAt(l: RingLink, i: nat, j: nat)
      reads this
    {
      i < |heads| == |lists| && j < |lists[i]| && lists[i][j] == l
    }

    constructor ()
      ensures Valid() && Table() == [] && heads == [] && store == map[]
    {
      heads, counts, store, lists := [], [], map[], [];
    }

    /** array_insert of a fresh map_head_t at the end of the table. */
    method AddBucket()
      requires Valid()
      modifies this`heads, this`counts, this`lists
      ensures Valid() && Table() == old(Table()) + [Head([], 0)]
      ensures heads == old(heads) + [heads[|heads| - 1]] && fresh(heads[|heads| - 1])
    {
      var h := new Link<nat>(None);
      Rings.FamilyWithHead(heads, lists, store.Keys, h);
      TableExtend(lists, counts, store);
      heads, counts := heads + [h], counts + [0];
      lists := lists + [[]];
    }

    /** array_del and free_map_head of the last, empty bucket. */
    method DropBucket()
      requires Valid() && heads != [] && Table()[|heads| - 1].nodes == []
      modifies this`heads, this`counts, this`lists
      ensures Valid() && heads == old(heads)[..|old(heads)| - 1] && Table() == old(Table())[..|old(heads)| - 1]
    {
      ghost var n := |heads| - 1;
      assert lists[n] == [];
      Rings.FamilyWithoutHead(heads, lists, store.Keys);
      PrefixOfTable(lists, counts, store, n);
      heads, counts := heads[..|heads| - 1], counts[..|heads| - 1];
      lists := lists[..n];
    }

    /** free and malloc of the value of node j of bucket i. */
    method Overwrite(l: RingLink, value: V, ghost i: nat, ghost j: nat)
      requires Valid() && IsAt(l, i, j)
      modifies this`store
      ensures Valid() && store.Keys == old(store.Keys)
      ensures var t := old(Table());
              Table() == t[i := Head(t[i].nodes[j := t[i].nodes[j].(value := value)], t[i].count)]
    {
      OnlyThere(i, j);
      TableUpdate(lists, counts, store, i, j, store[l].(value := value));
      store := store[l := store[l].(value := value)];
      assert store.Keys == old(store.Keys);
    }

    /** A link is on one list, once. */
    lemma OnlyThere(i: nat, j: nat)
      requires Valid() && i < |heads| && j < |lists[i]|
      ensures lists[i][j] in store && forall w :: 0 <= w < |lists| ==> Distinct(lists[w])
      ensures forall w :: 0 <= w < |lists| && w != i ==> lists[i][j] !in lists[w]
    {
      Rings.Unfold(heads, lists, store.Keys);
      forall w | 0 <= w < |lists| && w != i ensures lists[i][j] !in lists[w] { assert Apart(lists[i], lists[w]); }
    }

    /** The pointers of Append ... */
    method LinkNew(i: nat, n: Node<V>) returns (l: RingLink)
      requires Valid() && i < |heads|
      modifies this`store, this`lists, this`counts, heads, store.Keys
      ensures Valid() && fresh(l) && l !in old(store) && store == old(store)[l := n]
      ensures lists == old(lists)[i := old(lists)[i] + [l]] && counts == old(counts)[i := old(counts)[i] + 1]
    {
      ghost var ls, links := lists, store.Keys;
      l := Rings.AppendNew(heads[i], heads, ls, links, i);
      store := store[l := n];
      assert store.Keys == links + {l};
      lists := ls[i := ls[i] + [l]];
      counts := counts[i := counts[i] + 1];
    }

    /** alloc_map_node and list_add_before the head of bucket i. */
    method Append(i: nat, n: Node<V>)
      requires Valid() && i < |heads|
      modifies this`store, this`lists, this`counts, heads, store.Keys
      ensures Valid() && fresh(store.Keys - old(store.Keys))
      ensures var t := old(Table()); Table() == t[i := Head(t[i].nodes + [n], t[i].count + 1)]
    {
      var l := LinkNew(i, n);
      TableAppend(old(lists), old(counts), old(store), i, l, n);
    }

    /** The pointers of Remove ... */
    method Unlink(l: RingLink, i: nat, ghost j: nat)
      requires Valid() && IsAt(l, i, j)
      modifies this`store, this`lists, this`counts, heads, store.Keys
      ensures Valid() && store == old(store) - {l}
      ensures lists == old(lists)[i := Without(old(lists)[i], j)] && counts == old(counts)[i := old(counts)[i] - 1]
    {
      ghost var ls, links := lists, store.Keys;
      OnlyThere(i, j);
      TableRemove(ls, counts, store, i, j);
      Rings.Take(l, heads, ls, links, i, j);
      store := store - {l};
      assert store.Keys == links - {l};
      lists := ls[i := Without(ls[i], j)];
      counts := counts[i := counts[i] - 1];
    }

    /** list_delete and free of node j of bucket i. */
    method Remove(l: RingLink, i: nat, ghost j: nat)
      requires Valid() && IsAt(l, i, j)
      modifies this`store, this`lists, this`counts, heads, store.Keys
      ensures Valid() && lists == old(lists)[i := Without(old(lists)[i], j)] && store.Keys <= old(store.Keys)
      ensures var t := old(Table()); Table() == t[i := Head(Without(t[i].nodes, j), t[i].count - 1)]
    {
      OnlyThere(i, j);
      TableRemove(lists, counts, store, i, j);
      Unlink(l, i, j);
    }

    /** The pointers of Move ... */
    method Relink(l: RingLink, i: nat, k: nat, ghost j: nat)
      requires Valid() && IsAt(l, i, j) && k < |heads| && i != k
      modifies this`lists, this`counts, heads, store.Keys
      ensures Valid() && lists == old(lists)[i := Without(old(lists)[i], j)][k := old(lists)[k] + [l]]
      ensures counts == old(counts)[i := old(counts)[i] - 1][k := old(counts)[k] + 1]
    {
      ghost var ls, links := lists, store.Keys;
      Rings.MoveTail(heads[k], l, heads, ls, links, i, j, k);
      lists := ls[i := Without(ls[i], j)][k := ls[k] + [l]];
      counts := counts[i := counts[i] - 1];
      counts := counts[k := counts[k] + 1];
    }

    /** list_delete of node j of bucket i, and list_add_before the head of bucket k. */
    method Move(l: RingLink, i: nat, k: nat, ghost j: nat)
      requires Valid() && IsAt(l, i, j) && k < |heads| && i != k
      modifies this`lists, this`counts, heads, store.Keys
      ensures Valid() && lists == old(lists)[i := Without(old(lists)[i], j)][k := old(lists)[k] + [l]]
      ensures Table() == Moved(old(Table()), i, j, k)
    {
      TableMove(lists, counts, store, i, j, k);
      Relink(l, i, k, j);
    }

    /** The link at position j of bucket i, or its head at the end. */
    ghost function LinkAt(i: nat, j: nat): RingLink
      requires |lists| == |heads| && i < |heads| && j <= |lists[i]|
      reads this
    {
      if j < |lists[i]| then lists[i][j] else heads[i]
    }

    lemma Walk(i: nat, j: nat)
      requires Valid() && i < |heads| && j <= |lists[i]|
      ensures heads[i].next == LinkAt(i, 0) && |Table()[i].nodes| == |lists[i]|
      ensures LinkAt(i, j) == heads[i] <==> j == |lists[i]|
      ensures j < |lists[i]| ==> lists[i][j] in store && Table()[i].nodes[j] == store[lists[i][j]]
      ensures j < |lists[i]| ==> lists[i][j].next == LinkAt(i, j + 1)
    {
      Rings.FirstOf(heads, lists, store.Keys, i);
      if j < |lists[i]| { Rings.NextOf(heads, lists, store.Keys, i, j); }
    }

    /** The search loop of get, put and del: it walks the ring and stops at its head. */
    method Search(i: nat, key: int, name: Name) returns (ls: RingLink, found: bool)
      requires Valid() && i < |heads| && IsName(name) && AllNamed(Table()[i].nodes)
      ensures var nodes := Table()[i].nodes;
              var j := FirstMatch(nodes, key, name);
              && (found <==> j < |nodes|)
              && if found then IsAt(ls, i, j) && ls in store && store[ls] == nodes[j] else ls == heads[i]
    {
      ghost var nodes := Table()[i].nodes;
      Walk(i, 0);
      ghost var j := 0;
      ls, found := heads[i].next, false;
      while ls != heads[i]
        invariant j <= |lists[i]| && ls == LinkAt(i, j) && !found
        invariant forall k :: 0 <= k < j ==> !Matches(nodes[k], key, name)
        decreases |lists[i]| - j
      {
        Walk(i, j);
        var node := store[ls];
        ComparesPrefix(name, node.name);
        if key == node.key && StrnEqual(name, node.name, |name|, 0) {
          found := true;
          break;
        }
        ls, j := ls.next, j + 1;
      }
      Walk(i, j);
      FirstMatchIs(nodes, key, name, j);
    }

    /** Where the walk over bucket i stands: p nodes b[..p] done, at position j of what is left. */
    ghost predicate Walking(t: seq<Head<V>>, b: seq<Node<V>>, c: nat, i: nat, p: nat, j: nat, ls: RingLink)
      requires Valid()
      reads this, heads, store.Keys
    {
      && c > 0 && |heads| == 2 * c && i < c && p <= |b| && j <= |lists[i]|
      && SplitAt(t, Table(), b, c, i, p, j) && ls == LinkAt(i, j)
    }

    lemma WalkEnds(t: seq<Head<V>>, b: seq<Node<V>>, c: nat, i: nat, p: nat, j: nat, ls: RingLink)
      requires Valid() && Walking(t, b, c, i, p, j, ls)
      ensures |heads| == 2 * c && i < c && p <= |b| && (ls != heads[i] <==> p < |b|)
      ensures p < |b| ==> j < |lists[i]| && ls == lists[i][j]
    {
      Walk(i, j);
      SplitLeft(t, Table(), b, c, i, p, j);
    }

    lemma WalkStarts(c: nat, i: nat)
      requires Valid() && c > 0 && |heads| == 2 * c && i < c
      requires Table()[i] == Full(Table()[i].nodes) && Table()[i + c] == Full([])
      ensures Walking(Table(), Table()[i].nodes, c, i, 0, 0, heads[i].next)
    {
      SplitStart(Table(), Table()[i].nodes, c, i);
      Walk(i, 0);
    }

    /** One round of the loop: the successor is read before the node is relinked. */
    method WalkOn(
        ls: RingLink, i: nat, c: nat, ghost t: seq<Head<V>>, ghost b: seq<Node<V>>, ghost p: nat, ghost j: nat)
      returns (next: RingLink, ghost j': nat)
      requires Valid() && Walking(t, b, c, i, p, j, ls) && p < |b| && AllAt(b, c, i) && PowerOfTwo(2 * c)
      modifies this`lists, this`counts, heads, store.Keys
      ensures Valid() && Walking(t, b, c, i, p + 1, j', next)
    {
      WalkEnds(t, b, c, i, p, j, ls);
      Walk(i, j);
      SplitNext(t, Table(), b, c, i, p, j);
      next := ls.next;
      var idx := Slot(store[ls].key, 2 * c);
      if idx == i { j' := j + 1; } else { Move(ls, i, idx, j); j' := j; }
    }

    /** The inner loop of hash_map_resize: it walks the ring of bucket i and relinks nodes as it goes. */
    method Split(i: nat, c: nat)
      requires Valid() && c > 0 && PowerOfTwo(2 * c) && |heads| == 2 * c && i < c
      requires Table()[i] == Full(Table()[i].nodes) && Table()[i + c] == Full([]) && AllAt(Table()[i].nodes, c, i)
      modifies this`lists, this`counts, heads, store.Keys
      ensures Valid() && Splitting(old(Table()), Table(), old(Table())[i].nodes, c, i, |old(Table())[i].nodes|)
    {
      ghost var t, b, p: nat, j: nat := Table(), Table()[i].nodes, 0, 0;
      WalkStarts(c, i);
      var ls := heads[i].next;
      while ls != heads[i]
        invariant Valid() && Walking(t, b, c, i, p, j, ls)
        decreases |b| - p
      {
        WalkEnds(t, b, c, i, p, j, ls);
        ls, j := WalkOn(ls, i, c, t, b, p, j);
        p := p + 1;
      }
      WalkEnds(t, b, c, i, p, j, ls);
    }

    /** The first loop of hash_map_resize. */
    method Double(ghost nodes: seq<Node<V>>)
      requires Valid() && Laid(Table(), |heads|, nodes)
      modifies this`heads, this`counts, this`lists
      ensures Valid() && Halfway(Table(), nodes, |old(heads)|, 0)
      ensures forall k :: 0 <= k < |heads| ==> heads[k] in old(heads) || fresh(heads[k])
    {
      ghost var t := Table();
      var c := |heads|;
      for i := c to 2 * c
        invariant Valid() && |Table()| == i
        invariant forall k :: 0 <= k < |heads| ==> heads[k] in old(heads) || fresh(heads[k])
        invariant forall k :: 0 <= k < i ==> Table()[k] == if k < c then t[k] else Head([], 0)
      {
        AddBucket();
      }
    }

    /** The second loop of hash_map_resize. */
    method SplitAll(c: nat, ghost nodes: seq<Node<V>>)
      requires Valid() && Halfway(Table(), nodes, c, 0) && PowerOfTwo(2 * c)
      modifies this`lists, this`counts, heads, store.Keys
      ensures Valid() && Laid(Table(), 2 * c, nodes)
    {
      for i := 0 to c
        invariant Valid() && Halfway(Table(), nodes, c, i)
      {
        ghost var t := Table();
        BucketBelongs(nodes, c, i);
        Split(i, c);
        HalfwayNext(t, Table(), nodes, c, i);
      }
    }

    /** The inner loop of hash_map_clearall: the first node is freed until the ring is empty. */
    method FreeAll(i: nat) returns (freed: nat)
      requires Valid() && i < |heads| && Table()[i] == Full(Table()[i].nodes)
      modifies this`store, this`lists, this`counts, heads, store.Keys
      ensures Valid() && Table() == old(Table())[i := Head([], 0)] && freed == |old(Table())[i].nodes|
      ensures store.Keys <= old(store.Keys)
    {
      ghost var t := Table();
      var ls := heads[i].next;
      freed := 0;
      FreeingStart(i);
      while !IsEmpty(ls)
        invariant Valid() && store.Keys <= old(store.Keys) && Freeing(t, i, freed)
        invariant (IsEmpty(ls) <==> lists[i] == []) && (lists[i] != [] ==> ls == lists[i][0])
        decreases |lists[i]|
      {
        ls := FreeNext(ls, i, t, freed);
        freed := freed + 1;
      }
      FreeingEnd(t, i, freed);
    }

    lemma FreeingStart(i: nat)
      requires Valid() && i < |heads| && Table()[i] == Full(Table()[i].nodes)
      ensures Freeing(Table(), i, 0)
      ensures (IsEmpty(heads[i].next) <==> lists[i] == []) && (lists[i] != [] ==> heads[i].next == lists[i][0])
    {
      var t := Table();
      assert t[i].nodes[0..] == t[i].nodes && t[i := Full(t[i].nodes)] == t;
      Rings.FirstOf(heads, lists, store.Keys, i);
    }

    lemma FreeingEnd(t: seq<Head<V>>, i: nat, freed: nat)
      requires Valid() && Freeing(t, i, freed) && lists[i] == []
      ensures freed == |t[i].nodes| && Table() == t[i := Head([], 0)]
    {
      assert t[i].nodes[freed..] == [];
    }

    /** The first `freed` nodes of bucket i are gone. */
    ghost predicate Freeing(t: seq<Head<V>>, i: nat, freed: nat)
      requires Valid()
      reads this, heads, store.Keys
    {
      && i < |heads| == |t| && freed <= |t[i].nodes| && |lists[i]| == |t[i].nodes| - freed
      && Table() == t[i := Full(t[i].nodes[freed..])]
    }

    /** The table of Freeing with one node less. */
    lemma FreeingNext(t: seq<Head<V>>, i: nat, freed: nat)
      requires Valid() && Freeing(t, i, freed) && lists[i] != []
      ensures freed < |t[i].nodes|
      ensures var u := Table();
              u[i := Head(Without(u[i].nodes, 0), u[i].count - 1)] == t[i := Full(t[i].nodes[freed + 1..])]
    {
      var rest := t[i].nodes[freed..];
      assert Without(rest, 0) == rest[1..] == t[i].nodes[freed + 1..];
    }

    method FreeNext(ls: RingLink, i: nat, ghost t: seq<Head<V>>, ghost freed: nat) returns (next: RingLink)
      requires Valid() && Freeing(t, i, freed) && IsAt(ls, i, 0)
      modifies this`store, this`lists, this`counts, heads, store.Keys
      ensures Valid() && Freeing(t, i, freed + 1) && store.Keys <= old(store.Keys)
      ensures (IsEmpty(next) <==> lists[i] == []) && (lists[i] != [] ==> next == lists[i][0])
      ensures |lists[i]| < |old(lists)[i]|
    {
      Walk(i, 0);
      next := ls.next;
      FreeingNext(t, i, freed);
      Remove(ls, i, 0);
      Rings.FirstOf(heads, lists, store.Keys, i);
    }

    /** One round of hash_map_clearall: bucket i is emptied and, with `all`, it is the last one and goes too. */
    method Clear(i: nat, all: bool) returns (freed: nat)
      requires Valid() && i < |heads| && Table()[i] == Full(Table()[i].nodes) && (all ==> |heads| == i + 1)
      modifies this, heads, store.Keys
      ensures Valid() && freed == |old(Table())[i].nodes| && store.Keys <= old(store.Keys)
      ensures var t := old(Table())[i := Head([], 0)]; Table() == if all then t[..i] else t
      ensures heads == if all then old(heads)[..i] else old(heads)
    {
      freed := FreeAll(i);
      if all { DropBucket(); }
    }
  }
}
