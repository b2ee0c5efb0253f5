/**
 Runs of the hash map against runs of a finite map.  Names are compared by the length of the
 name asked for, so the two agree on all runs over a set of keys exactly when no key of the
 set is a proper prefix of another with the same hash.
 */
module HashRuns {
  import opened Common
  import opened HashSpec

  datatype Op<V> = GetOp(name: Name) | PutOp(name: Name, value: V) | DelOp(name: Name) | SizeOp | ClearOp

  datatype Out<V> = Found(value: Option<V>) | Stored | Deleted(found: bool) | Size(size: nat) | Cleared

  /** One call on the list of nodes, and what it returns. */
  function Step<V>(h: Name -> int, nodes: seq<Node<V>>, op: Op<V>): (seq<Node<V>>, Out<V>) {
    match op
    case GetOp(name) => (nodes, Found(Get(nodes, h(name), name)))
    case PutOp(name, value) => (Put(nodes, h(name), name, value), Stored)
    case DelOp(name) => (Del(nodes, h(name), name), Deleted(FirstMatch(nodes, h(name), name) < |nodes|))
    case SizeOp => (nodes, Size(|nodes|))
    case ClearOp => ([], Cleared)
  }

  /** The same call on a finite map. */
  function MapStep<V>(m: map<Name, V>, op: Op<V>): (map<Name, V>, Out<V>) {
    match op
    case GetOp(name) => (m, Found(if name in m then Some(m[name]) else None))
    case PutOp(name, value) => (m[name := value], Stored)
    case DelOp(name) => (m - {name}, Deleted(name in m))
    case SizeOp => (m, Size(|m|))
    case ClearOp => (map[], Cleared)
  }

  function Run<V>(h: Name -> int, nodes: seq<Node<V>>, ops: seq<Op<V>>): seq<Out<V>>
    decreases |ops|
  {
    if ops == [] then [] else var (next, out) := Step(h, nodes, ops[0]); [out] + Run(h, next, ops[1..])
  }

  function MapRun<V>(m: map<Name, V>, ops: seq<Op<V>>): seq<Out<V>>
    decreases |ops|
  {
    if ops == [] then [] else var (next, out) := MapStep(m, ops[0]); [out] + MapRun(next, ops[1..])
  }

  predicate Keyed<V>(op: Op<V>) { op.GetOp? || op.PutOp? || op.DelOp? }

  /** All keys used are in the set. */
  ghost predicate Over<V>(ks: iset<Name>, ops: seq<Op<V>>) {
    forall i :: 0 <= i < |ops| && Keyed(ops[i]) ==> ops[i].name in ks
  }

  /** No key is a proper prefix of another with the same hash. */
  ghost predicate PrefixFree(h: Name -> int, ks: iset<Name>) {
    forall a, b :: a in ks && b in ks && h(a) == h(b) && a <= b ==> a == b
  }

  ghost predicate Named<V>(nodes: seq<Node<V>>, name: Name) {
    exists i :: 0 <= i < |nodes| && nodes[i].name == name
  }

  /** Nodes carry the hash of their names, which are keys of the set and all different. */
  ghost predicate Clean<V>(h: Name -> int, ks: iset<Name>, nodes: seq<Node<V>>) {
    && (forall i :: 0 <= i < |nodes| ==> nodes[i].key == h(nodes[i].name) && nodes[i].name in ks)
    && (forall i, j :: 0 <= i < j < |nodes| ==> nodes[i].name != nodes[j].name)
  }

  /** The nodes are exactly the entries of the map. */
  ghost predicate Agree<V>(h: Name -> int, ks: iset<Name>, nodes: seq<Node<V>>, m: map<Name, V>) {
    && Clean(h, ks, nodes) && |m| == |nodes|
    && (forall i :: 0 <= i < |nodes| ==> nodes[i].name in m && m[nodes[i].name] == nodes[i].value)
    && (forall name :: name in m ==> Named(nodes, name))
  }

  /** On a prefix-free set the first match is the node of that very name. */
  lemma {:induction false} FindsTheName<V>(
      h: Name -> int, ks: iset<Name>, nodes: seq<Node<V>>, m: map<Name, V>, name: Name)
    requires PrefixFree(h, ks) && Agree(h, ks, nodes, m) && name in ks
    ensures var r := FirstMatch(nodes, h(name), name);
            (r < |nodes| <==> name in m) && (r < |nodes| ==> nodes[r].name == name)
  {
    if name in m {
      var i :| 0 <= i < |nodes| && nodes[i].name == name;
      assert Matches(nodes[i], h(name), name);
    }
  }

  /** Nodes with the same names list the same keys. */
  lemma {:induction false} SameNames<V>(nodes: seq<Node<V>>, nodes': seq<Node<V>>, name: Name)
    requires |nodes| == |nodes'| && Named(nodes, name)
    requires forall i :: 0 <= i < |nodes| ==> nodes'[i].name == nodes[i].name
    ensures Named(nodes', name)
  {
    var i :| 0 <= i < |nodes| && nodes[i].name == name;
    assert nodes'[i].name == name;
  }

  lemma {:induction false} CleanUpdate<V>(h: Name -> int, ks: iset<Name>, nodes: seq<Node<V>>, r: nat, value: V)
    requires Clean(h, ks, nodes) && r < |nodes|
    ensures Clean(h, ks, nodes[r := nodes[r].(value := value)])
  {
    var nodes' := nodes[r := nodes[r].(value := value)];
    forall i, j | 0 <= i < j < |nodes'| ensures nodes'[i].name != nodes'[j].name {
      assert nodes'[i].name == nodes[i].name && nodes'[j].name == nodes[j].name;
    }
  }

  lemma {:induction false} UpdateAgrees<V>(
      h: Name -> int, ks: iset<Name>, nodes: seq<Node<V>>, m: map<Name, V>, r: nat, value: V)
    requires Agree(h, ks, nodes, m) && r < |nodes|
    ensures Agree(h, ks, nodes[r := nodes[r].(value := value)], m[nodes[r].name := value])
  {
    var name := nodes[r].name;
    var nodes', m' := nodes[r := nodes[r].(value := value)], m[name := value];
    CleanUpdate(h, ks, nodes, r, value);
    assert m'.Keys == m.Keys;
    forall i | 0 <= i < |nodes'| ensures nodes'[i].name in m' && m'[nodes'[i].name] == nodes'[i].value {
      if i != r { assert nodes[i].name != nodes[r].name; }
    }
    forall x | x in m' ensures Named(nodes', x) { SameNames(nodes, nodes', x); }
  }

  lemma {:induction false} CleanAppend<V>(h: Name -> int, ks: iset<Name>, nodes: seq<Node<V>>, n: Node<V>)
    requires Clean(h, ks, nodes) && n.key == h(n.name) && n.name in ks && !Named(nodes, n.name)
    ensures Clean(h, ks, nodes + [n])
  {
    var nodes' := nodes + [n];
    forall i, j | 0 <= i < j < |nodes'| ensures nodes'[i].name != nodes'[j].name {
      if j == |nodes| { assert nodes[i].name != n.name; }
    }
  }

  lemma {:induction false} AppendAgrees<V>(
      h: Name -> int, ks: iset<Name>, nodes: seq<Node<V>>, m: map<Name, V>, name: Name, value: V)
    requires Agree(h, ks, nodes, m) && name in ks && name !in m
    ensures Agree(h, ks, nodes + [Node(h(name), name, value)], m[name := value])
  {
    var nodes', m' := nodes + [Node(h(name), name, value)], m[name := value];
    CleanAppend(h, ks, nodes, Node(h(name), name, value));
    assert m'.Keys == m.Keys + {name};
    assert nodes'[|nodes|].name == name;
    forall x | x in m' ensures Named(nodes', x) {
      if x != name {
        var i :| 0 <= i < |nodes| && nodes[i].name == x;
        assert nodes'[i].name == x;
      }
    }
  }

  lemma {:induction false} CleanWithout<V>(h: Name -> int, ks: iset<Name>, nodes: seq<Node<V>>, r: nat)
    requires Clean(h, ks, nodes) && r < |nodes|
    ensures Clean(h, ks, Without(nodes, r))
  {
    var nodes' := Without(nodes, r);
    forall i, j | 0 <= i < j < |nodes'| ensures nodes'[i].name != nodes'[j].name {
      WithoutAt(nodes, r, i);
      WithoutAt(nodes, r, j);
    }
    forall i | 0 <= i < |nodes'| ensures nodes'[i].key == h(nodes'[i].name) && nodes'[i].name in ks {
      WithoutAt(nodes, r, i);
    }
  }

  lemma {:induction false} WithoutAt<X>(s: seq<X>, r: nat, i: nat)
    requires r < |s| && i < |Without(s, r)|
    ensures Without(s, r)[i] == s[if i < r then i else i + 1]
  {}

  lemma {:induction false} StillNamed<V>(nodes: seq<Node<V>>, r: nat, name: Name)
    requires r < |nodes| && Named(nodes, name) && name != nodes[r].name
    ensures Named(Without(nodes, r), name)
  {
    var i :| 0 <= i < |nodes| && nodes[i].name == name;
    WithoutAt(nodes, r, if i < r then i else i - 1);
  }

  lemma {:induction false} RemoveAgrees<V>(
      h: Name -> int, ks: iset<Name>, nodes: seq<Node<V>>, m: map<Name, V>, r: nat)
    requires Agree(h, ks, nodes, m) && r < |nodes|
    ensures Agree(h, ks, Without(nodes, r), m - {nodes[r].name})
  {
    var nodes', m' := Without(nodes, r), m - {nodes[r].name};
    CleanWithout(h, ks, nodes, r);
    assert m'.Keys == m.Keys - {nodes[r].name};
    forall i | 0 <= i < |nodes'| ensures nodes'[i].name in m' && m'[nodes'[i].name] == nodes'[i].value {
      WithoutAt(nodes, r, i);
    }
    forall x | x in m' ensures Named(nodes', x) { StillNamed(nodes, r, x); }
  }

  /** Each call returns what the map returns and leaves the two in agreement. */
  lemma {:induction false} StepAgrees<V>(
      h: Name -> int, ks: iset<Name>, nodes: seq<Node<V>>, m: map<Name, V>, op: Op<V>)
    requires PrefixFree(h, ks) && Agree(h, ks, nodes, m) && (Keyed(op) ==> op.name in ks)
    ensures Agree(h, ks, Step(h, nodes, op).0, MapStep(m, op).0) && Step(h, nodes, op).1 == MapStep(m, op).1
  {
    if Keyed(op) { FindsTheName(h, ks, nodes, m, op.name); }
    match op
    case GetOp(name) =>
    case PutOp(name, value) =>
      var r := FirstMatch(nodes, h(name), name);
      if r < |nodes| { UpdateAgrees(h, ks, nodes, m, r, value); } else { AppendAgrees(h, ks, nodes, m, name, value); }
    case DelOp(name) =>
      var r := FirstMatch(nodes, h(name), name);
      if r < |nodes| { RemoveAgrees(h, ks, nodes, m, r); } else { assert m - {name} == m; }
    case SizeOp =>
    case ClearOp =>
  }

  lemma {:induction false} RunsAgree<V>(
      h: Name -> int, ks: iset<Name>, nodes: seq<Node<V>>, m: map<Name, V>, ops: seq<Op<V>>)
    requires PrefixFree(h, ks) && Agree(h, ks, nodes, m) && Over(ks, ops)
    ensures Run(h, nodes, ops) == MapRun(m, ops)
    decreases |ops|
  {
    if ops != [] {
      StepAgrees(h, ks, nodes, m, ops[0]);
      RunsAgree(h, ks, Step(h, nodes, ops[0]).0, MapStep(m, ops[0]).0, ops[1..]);
    }
  }

  ghost predicate BehavesAsMap<V(!new)>(h: Name -> int, ks: iset<Name>) {
    forall ops: seq<Op<V>> :: Over(ks, ops) ==> Run(h, [], ops) == MapRun(map[], ops)
  }

  /** Storing under the longer name makes the shorter one appear to be present. */
  lemma PrefixIsMistaken<V>(h: Name -> int, a: Name, b: Name, value: V)
    requires h(a) == h(b) && a < b
    ensures var ops := [PutOp(b, value), GetOp(a)];
            Run(h, [], ops) == [Stored, Found(Some(value))] && MapRun(map[], ops) == [Stored, Found(None)]
  {
    var put, get := PutOp(b, value), GetOp(a);
    var nodes := [Node(h(b), b, value)];
    assert Matches(nodes[0], h(a), a);
    assert [put, get][1..] == [get] && [get][1..] == [];
    assert Put([], h(b), b, value) == nodes;
    assert Run(h, [], [put, get]) == [Stored] + Run(h, nodes, [get]);
    assert Run(h, nodes, [get]) == [Found(Some(value))];
    assert MapRun(map[], [put, get]) == [Stored] + MapRun(map[b := value], [get]);
    assert MapRun(map[b := value], [get]) == [Found(None)];
  }

  /** For any hash and any set of keys: a map on all runs, if and only if the set is prefix-free. */
  lemma BehavesAsMapExactlyWhenPrefixFree<V(!new)>(h: Name -> int, ks: iset<Name>, value: V)
    ensures BehavesAsMap<V>(h, ks) <==> PrefixFree(h, ks)
  {
    if PrefixFree(h, ks) {
      forall ops: seq<Op<V>> | Over(ks, ops) ensures Run(h, [], ops) == MapRun(map[], ops) {
        RunsAgree(h, ks, [], map[], ops);
      }
    } else {
      var a, b :| a in ks && b in ks && h(a) == h(b) && a <= b && a != b;
      PrefixIsMistaken(h, a, b, value);
      var ops: seq<Op<V>> := [PutOp(b, value), GetOp(a)];
      assert Over(ks, ops);
    }
  }

  /** With string_hash the empty name collides with a longer one. */
  lemma StringHashIsNotPrefixFree()
    ensures var a: Name, b: Name := [], [1, -31];
            IsName(a) && IsName(b) && !PrefixFree(StringHash, iset{a, b})
  {
    var a: Name, b: Name := [], [1, -31];
    assert b[..1] == [1] && [1][..0] == [];
    assert StringHash([1]) == 1;
    assert StringHash(b) == 0 == StringHash(a);
    var h: Name -> int, ks := StringHash, iset{a, b};
    assert a in ks && b in ks && h(a) == h(b) && a <= b && a != b;
  }
}
