/** The coroutine-id allocator of cid.c: fresh ids until `max`, then the smallest freed one. */
module IdAllocator {
  import opened Common
  import opened HeapSpec
  import H = Heap

  /** _id_cmp */
  const IdLess: (int, int) -> bool := (a, b) => a < b

  lemma IdLessIsComparator()
    ensures Comparator(IdLess) && Faithful(IdLess) && forall a, b :: Le(IdLess, a, b) <==> a <= b
  {
    forall a, b, c ensures Transits(IdLess, a, b, c) {}
    forall a, b ensures NeedlessIsSame(IdLess, a, b) {}
  }

  /** `base` ids have been handed out at least once; `recycled` is the heap of freed ones. */
  datatype Ids = Ids(base: nat, recycled: seq<int>)

  function Below(n: nat): (r: set<int>)
    ensures forall k :: k in r <==> 0 <= k < n
  {
    if n == 0 then {} else Below(n - 1) + {n - 1}
  }

  function Elems(s: seq<int>): set<int> { set x | x in s }

  /** The ids handed out and not recycled. */
  function Live(s: Ids): set<int> { Below(s.base) - Elems(s.recycled) }

  ghost predicate Inv(max: nat, s: Ids) {
    && s.base <= max
    && Ordered(IdLess, s.recycled)
    && multiset(s.recycled) == multiset(Elems(s.recycled))
    && Elems(s.recycled) <= Below(s.base)
  }

  function Alloc(max: nat, s: Ids): (Ids, Option<int>) {
    if s.base >= max then
      if s.recycled == [] then (s, None)
      else (s.(recycled := Rest(IdLess, s.recycled)), Some(s.recycled[0]))
    else (s.(base := s.base + 1), Some(s.base))
  }

  /** free_cid of any id; cid_t is unsigned. */
  function Free(max: nat, s: Ids, id: nat): Ids
    requires max > 0
  {
    s.(recycled := Pushed(IdLess, s.recycled, id % max))
  }

  lemma AddOne(a: set<int>, x: int)
    requires x !in a
    ensures |a + {x}| == |a| + 1
  {}

  lemma {:induction false} BelowSize(n: nat)
    ensures |Below(n)| == n
  {
    if n > 0 {
      BelowSize(n - 1);
      AddOne(Below(n - 1), n - 1);
    }
  }

  /** Allocation fails exactly when all ids are live. */
  lemma FailsExactlyWhenFull(max: nat, s: Ids)
    requires Inv(max, s)
    ensures Alloc(max, s).1.None? <==> |Live(s)| == max
  {
    BelowSize(s.base);
    BelowSize(max);
    if Alloc(max, s).1.None? {
      assert Live(s) == Below(max);
    } else if s.base == max {
      assert s.recycled[0] in Elems(s.recycled) && s.recycled[0] !in Live(s);
      SubsetSmaller(Live(s), Below(max), s.recycled[0]);
    } else {
      SubsetSize(Live(s), Below(s.base));
    }
  }

  lemma SubsetSize(a: set<int>, b: set<int>)
    requires a <= b
    ensures |a| <= |b|
  {
    assert b == a + (b - a);
    assert |b| == |a| + |b - a|;
  }

  lemma SubsetSmaller(a: set<int>, b: set<int>, x: int)
    requires a <= b && x in b && x !in a
    ensures |a| < |b|
  {
    SubsetSize(a + {x}, b);
  }

  /** A successful allocation returns an id that is not live, below max, and makes exactly it live. */
  lemma AllocTakesAFreeId(max: nat, s: Ids)
    requires Inv(max, s) && Alloc(max, s).1.Some?
    ensures var (s', r) := Alloc(max, s);
            && Inv(max, s') && 0 <= r.value < max && r.value !in Live(s)
            && Live(s') == Live(s) + {r.value}
            && (s.base < max ==> r.value == s.base)
            && (s.base == max ==> forall k :: 0 <= k < max && k !in Live(s) ==> r.value <= k)
  {
    var (s', r) := Alloc(max, s);
    if s.base == max {
      IdLessIsComparator();
      PopKeepsHeap(IdLess, s.recycled);
      PoppedOnce(s.recycled, s'.recycled);
      assert r.value in Elems(s.recycled);
      forall k | 0 <= k < max && k !in Live(s) ensures r.value <= k {
        assert k in Elems(s.recycled);
        assert Le(IdLess, s.recycled[0], k);
      }
    }
  }

  lemma AllocFacts(max: nat, s: Ids)
    requires Inv(max, s)
    ensures var (s', r) := Alloc(max, s);
            && Inv(max, s') && (r.None? <==> |Live(s)| == max)
            && (r.Some? ==> r.value !in Live(s) && Live(s') == Live(s) + {r.value})
  {
    FailsExactlyWhenFull(max, s);
    if Alloc(max, s).1.Some? { AllocTakesAFreeId(max, s); }
  }

  lemma PoppedOnce(q: seq<int>, q': seq<int>)
    requires q != [] && multiset(q) == multiset(Elems(q)) && multiset(q') == multiset(q) - multiset{q[0]}
    ensures Elems(q') == Elems(q) - {q[0]} && multiset(q') == multiset(Elems(q'))
  {
    forall x ensures x in q' <==> x in q && x != q[0] {
      assert x in q' <==> x in multiset(q');
      assert x in q <==> x in multiset(q);
    }
  }

  lemma PushedOnce(q: seq<int>, q': seq<int>, id: int)
    requires multiset(q) == multiset(Elems(q)) && id !in q && multiset(q') == multiset(q) + multiset{id}
    ensures Elems(q') == Elems(q) + {id} && multiset(q') == multiset(Elems(q'))
  {
    forall x ensures x in q' <==> x in q || x == id {
      assert x in q' <==> x in multiset(q');
      assert x in q <==> x in multiset(q);
    }
  }

  lemma FreeReturnsIt(max: nat, s: Ids, id: nat)
    requires max > 0 && Inv(max, s) && id % max in Live(s)
    ensures Inv(max, Free(max, s, id)) && Live(Free(max, s, id)) == Live(s) - {id % max}
  {
    IdLessIsComparator();
    PushKeepsHeap(IdLess, s.recycled, id % max);
    PushedOnce(s.recycled, Pushed(IdLess, s.recycled, id % max), id % max);
  }

  /** The invariant survives exactly when what is freed is live. */
  lemma {:induction false} FreeIsSoundExactlyWhenLive(max: nat, s: Ids, id: nat)
    requires max > 0 && Inv(max, s)
    ensures Inv(max, Free(max, s, id)) <==> id % max in Live(s)
  {
    var x, q := id % max, s.recycled;
    var q' := Free(max, s, id).recycled;
    if x in Live(s) {
      FreeReturnsIt(max, s, id);
    } else {
      IdLessIsComparator();
      PushKeepsHeap(IdLess, q, x);
      assert x in multiset(q') && x in q';
      if x in q { assert x in multiset(q) && multiset(q')[x] >= 2; }
    }
  }

  lemma SmallMod(x: nat, m: nat)
    requires x < m
    ensures x % m == x
  {}

  // ---- whole runs

  datatype Op = Take | Give(id: nat)

  /** What a call leaves of the ids that are out: those returned and not yet given back. */
  function Outstanding(out: set<int>, r: Option<int>): set<int> {
    if r.Some? then out + {r.value} else out
  }

  /** Only ids that are out are given back. */
  ghost predicate Legal(max: nat, s: Ids, out: set<int>, ops: seq<Op>)
    decreases |ops|
  {
    ops == [] ||
    match ops[0]
    case Take => var (s', r) := Alloc(max, s); Legal(max, s', Outstanding(out, r), ops[1..])
    case Give(id) => max > 0 && id in out && Legal(max, Free(max, s, id), out - {id as int}, ops[1..])
  }

  /** The allocator and the ids that are out, after a run. */
  ghost function Run(max: nat, s: Ids, out: set<int>, ops: seq<Op>): (Ids, set<int>)
    requires Legal(max, s, out, ops)
    decreases |ops|
  {
    if ops == [] then (s, out)
    else
      match ops[0]
      case Take => var (s', r) := Alloc(max, s); Run(max, s', Outstanding(out, r), ops[1..])
      case Give(id) => Run(max, Free(max, s, id), out - {id as int}, ops[1..])
  }

  /** The ids that are out are the complement of the recycled ones. */
  lemma {:induction false} RunKeepsInv(max: nat, s: Ids, out: set<int>, ops: seq<Op>)
    requires Inv(max, s) && out == Live(s) && Legal(max, s, out, ops)
    ensures var (s', out') := Run(max, s, out, ops); Inv(max, s') && out' == Live(s')
    decreases |ops|
  {
    if ops != [] {
      match ops[0]
      case Take =>
        var (s1, r) := Alloc(max, s);
        AllocFacts(max, s);
        RunKeepsInv(max, s1, Outstanding(out, r), ops[1..]);
      case Give(id) =>
        SmallMod(id, max);
        FreeReturnsIt(max, s, id);
        RunKeepsInv(max, Free(max, s, id), out - {id as int}, ops[1..]);
    }
  }

  /**
   After any run that gives back only what is out, the ids that are out and the recycled ones
   partition those ever handed out; the next allocation fails exactly when `max` ids are out,
   never returns one that is, and once all have been handed out returns the smallest free one.
   */
  lemma {:induction false} AllocatorIsCorrect(max: nat, ops: seq<Op>)
    requires Legal(max, Ids(0, []), {}, ops)
    ensures var (s, out) := Run(max, Ids(0, []), {}, ops);
            var (s', r) := Alloc(max, s);
            && out !! Elems(s.recycled) && out + Elems(s.recycled) == Below(s.base)
            && |s.recycled| == |Elems(s.recycled)| && s.base <= max
            && (r.None? <==> |out| == max)
            && (r.Some? ==> 0 <= r.value < max && r.value !in out)
            && (r.Some? && s.base == max ==> forall k :: 0 <= k < max && k !in out ==> r.value <= k)
  {
    RunKeepsInv(max, Ids(0, []), {}, ops);
    var (s, out) := Run(max, Ids(0, []), {}, ops);
    FailsExactlyWhenFull(max, s);
    RecycledOnce(s.recycled);
    if Alloc(max, s).1.Some? { AllocTakesAFreeId(max, s); }
  }

  lemma RecycledOnce(q: seq<int>)
    requires multiset(q) == multiset(Elems(q))
    ensures |q| == |Elems(q)|
  {
    assert |multiset(q)| == |q| && |multiset(Elems(q))| == |Elems(q)|;
  }

  // ---- freeing what is not out

  /** None of the next n allocations returns an id that is out. */
  ghost predicate NeverReissues(max: nat, s: Ids, out: set<int>, n: nat)
    decreases n
  {
    n == 0 ||
    var (s', r) := Alloc(max, s);
    (r.Some? ==> r.value !in out) && NeverReissues(max, s', Outstanding(out, r), n - 1)
  }

  lemma {:induction false} SoundNeverReissues(max: nat, s: Ids, n: nat)
    requires Inv(max, s)
    ensures NeverReissues(max, s, Live(s), n)
    decreases n
  {
    if n > 0 {
      AllocFacts(max, s);
      SoundNeverReissues(max, Alloc(max, s).0, n - 1);
    }
  }

  /** Id y is on the recycle heap and also out, or still to be handed out fresh, or on the heap twice. */
  ghost predicate Doomed(max: nat, s: Ids, out: set<int>, y: int) {
    && Ordered(IdLess, s.recycled) && 0 <= y < max && y in s.recycled
    && (y in out || y >= s.base || multiset(s.recycled)[y] >= 2)
  }

  /** An allocation returns an id that is out, or leaves y doomed. */
  lemma DoomStays(max: nat, s: Ids, out: set<int>, y: int)
    requires Doomed(max, s, out, y)
    ensures var (s', r) := Alloc(max, s);
            r.Some? && (r.value in out || Doomed(max, s', Outstanding(out, r), y))
  {
    if s.base >= max {
      IdLessIsComparator();
      PopKeepsHeap(IdLess, s.recycled);
      var q := Rest(IdLess, s.recycled);
      assert multiset(q)[y] >= 1 ==> y in q;
      assert multiset(s.recycled)[y] >= 1;
    }
  }

  lemma {:induction false} DoomedReissues(max: nat, s: Ids, out: set<int>, y: int) returns (n: nat)
    requires Doomed(max, s, out, y)
    ensures !NeverReissues(max, s, out, n)
    decreases max - s.base, |s.recycled|
  {
    DoomStays(max, s, out, y);
    var (s', r) := Alloc(max, s);
    if r.value in out {
      n := 1;
    } else {
      if s.base >= max { PopShortens(s.recycled); }
      var k := DoomedReissues(max, s', Outstanding(out, r), y);
      n := k + 1;
    }
  }

  lemma PopShortens(q: seq<int>)
    requires q != [] && Ordered(IdLess, q)
    ensures |Rest(IdLess, q)| < |q|
  {
    IdLessIsComparator();
    PopKeepsHeap(IdLess, q);
    assert |multiset(Rest(IdLess, q))| == |multiset(q)| - 1 by { assert q[0] in multiset(q); }
  }

  /**
   For any id: after it is freed no sequence of allocations returns an id that is still out,
   if and only if the id was out.
   */
  lemma {:induction false} FreeReissuesNothingExactlyWhenLive(max: nat, s: Ids, id: nat)
    requires max > 0 && Inv(max, s)
    ensures var x := id % max;
            (forall n: nat :: NeverReissues(max, Free(max, s, id), Live(s) - {x}, n)) <==> x in Live(s)
  {
    var x, s' := id % max, Free(max, s, id);
    if x in Live(s) {
      FreeReturnsIt(max, s, id);
      forall n: nat ensures NeverReissues(max, s', Live(s) - {x}, n) { SoundNeverReissues(max, s', n); }
    } else {
      IdLessIsComparator();
      PushKeepsHeap(IdLess, s.recycled, x);
      assert x in multiset(s'.recycled) && x in s'.recycled;
      if x in s.recycled { assert x in multiset(s.recycled); }
      var n := DoomedReissues(max, s', Live(s) - {x}, x);
    }
  }

  // ---- the allocator in place

  class IdDispatch {
    const recycle: H.Heap<int>
    const maxId: nat
    var base: nat

    ghost predicate Valid()
      reads this, recycle, recycle.items
    {
      recycle.Valid() && recycle.cmp == IdLess
    }

    /** Nothing has been freed that was not live. */
    ghost predicate Sound()
      requires Valid()
      reads this, recycle, recycle.items, recycle.items.vector
    {
      Inv(maxId, State())
    }

    function State(): Ids
      requires recycle.Valid()
      reads this, recycle, recycle.items, recycle.items.vector
    {
      Ids(base, recycle.Elements())
    }

    constructor (max: nat)
      ensures Valid() && Sound() && State() == Ids(0, []) && maxId == max
    {
      recycle := new H.Heap(IdLess);
      maxId := max;
      base := 0;
    }

    /** alloc_cid; -1 is None. */
    method AllocId() returns (id: Option<int>)
      requires Valid()
      modifies this, recycle.items, recycle.items.vector
      ensures Valid() && (State(), id) == Alloc(maxId, old(State()))
      ensures old(Sound()) ==> Sound() && (id.None? <==> |Live(old(State()))| == maxId)
      ensures old(Sound()) && id.Some? ==>
              id.value !in Live(old(State())) && Live(State()) == Live(old(State())) + {id.value}
    {
      ghost var s := State();
      if base >= maxId {
        id := recycle.Pop();
      } else {
        id := Some(base);
        base := base + 1;
      }
      assert (State(), id) == Alloc(maxId, s);
      if Inv(maxId, s) { AllocFacts(maxId, s); }
    }

    /** free_cid: it does not ask whether the id is live. */
    method FreeId(id: nat)
      requires Valid() && maxId > 0
      modifies this, recycle.items, recycle.items.vector
      ensures Valid() && State() == Free(maxId, old(State()), id)
      ensures old(Sound()) ==> (Sound() <==> id % maxId in Live(old(State())))
      ensures old(Sound()) && Sound() ==> Live(State()) == Live(old(State())) - {id % maxId}
    {
      ghost var s := State();
      recycle.Push(id % maxId);
      if Inv(maxId, s) {
        FreeIsSoundExactlyWhenLive(maxId, s, id);
        if id % maxId in Live(s) { FreeReturnsIt(maxId, s, id); }
      }
    }
  }
}
