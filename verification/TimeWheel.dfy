/**
 The timing wheel in place: an array of list heads, elements linked into the slots, and the
 drain loop of the timer task.  Each method performs one operation of WheelSpec on the rings.
 */
module TimeWheel {
  import opened Common
  import opened Links
  import opened Rings
  import W = WheelSpec
  import Residue

  class TimeWheel {
    const heads: seq<Node>       // wheel[0 .. size]
    const elems: set<Node>       // the links that may be armed
    var loc: nat
    ghost var slots: seq<seq<Node>>

    ghost function Wheel(): W.Wheel<Node>
      reads this
    {
      W.Wheel(slots, loc)
    }

    ghost predicate Valid()
      reads this, heads, elems
    {
      Family(heads, slots, elems) && loc < |heads|
    }

    /** new_time_wheel: one fresh list head per slot. */
    constructor (size: nat, elems: set<Node>)
      requires forall t :: t in elems ==> Alone(t)
      ensures Valid() && fresh(heads) && this.elems == elems && Wheel() == W.NewWheel(size)
    {
      var n := if size > W.MIN_SIZE then size else W.MIN_SIZE;
      var hs: seq<Node> := [];
      for i := 0 to n
        invariant |hs| == i && fresh(hs) && Distinct(hs)
        invariant forall w :: 0 <= w < i ==> Cycle([hs[w]])
      {
        var head := new Link<nat>(None);
        DistinctSnoc(hs, head);
        hs := hs + [head];
      }
      this.heads, this.elems, loc := hs, elems, 0;
      slots := W.NewWheel<Node>(size).slots;
      new;
      EmptyFamily(heads, slots, elems);
    }

    /** wheel_rotate */
    method Rotate()
      requires Valid()
      modifies this`loc
      ensures Valid() && loc == (old(loc) + 1) % |heads|
    {
      Residue.ModBound(|heads|, loc + 1);
      loc := (loc + 1) % |heads|;
    }

    /** wheel_delete_element: the element leaves its slot, whichever that is. */
    method DeleteElement(e: Node)
      requires Valid() && e in elems
      modifies this`slots, heads, elems
      ensures Valid() && Wheel() == W.Cancel(old(Wheel()), e) && Free(slots, e)
    {
      Detach(e, heads, slots, elems);
      slots := Unlisted(slots, e);
    }

    /** wheel_delete_element, then list_add to a slot. */
    method MoveTo(e: Node, tv: nat)
      requires Valid() && e in elems && tv < |heads|
      modifies this`slots, heads, elems
      ensures Valid() && var rest := Unlisted(old(slots), e); slots == rest[tv := [e] + rest[tv]]
    {
      Move(heads[tv], e, heads, slots, elems, tv);
      slots := Unlisted(slots, e)[tv := [e] + Unlisted(slots, e)[tv]];
    }

    method SlotFor(timeout: nat) returns (tv: nat)
      requires Valid()
      ensures tv < |heads| && tv == W.SlotFor(Wheel(), timeout)
    {
      tv := (loc + timeout + 1) % |heads|;
      Residue.ModBound(|heads|, loc + timeout + 1);
    }

    /** wheel_update_element */
    method UpdateElement(e: Node, timeout: int)
      requires Valid() && e in elems
      modifies this`slots, heads, elems
      ensures Valid() && Wheel() == W.Update(old(Wheel()), e, timeout)
    {
      if timeout >= 0 {
        var tv := SlotFor(timeout);
        MoveTo(e, tv);
      }
    }

    /** The elements of the current slot after those fired are still linked. */
    ghost predicate Drained(s: seq<seq<Node>>, fired: seq<Node>)
      requires loc < |s|
      reads this
    {
      |fired| <= |s[loc]| && fired == s[loc][..|fired|] && slots == s[loc := s[loc][|fired|..]]
    }

    lemma DrainedNext(s: seq<seq<Node>>, fired: seq<Node>)
      requires loc < |s| && Drained(s, fired) && slots[loc] != []
      ensures var e := slots[loc][0];
              && |fired| < |s[loc]| && fired + [e] == s[loc][..|fired| + 1]
              && slots[loc := slots[loc][1..]] == s[loc := s[loc][|fired| + 1..]]
    {}

    /** One round of the drain: unlink the first element of the slot. */
    method FireFirst(e: Node)
      requires Valid() && slots[loc] != [] && e == slots[loc][0]
      modifies this`slots, heads, elems
      ensures Valid() && slots == old(slots)[loc := old(slots)[loc][1..]]
    {
      UnlistFirst(heads, slots, elems, loc);
      OnList(heads, slots, elems, loc, 0);
      DeleteElement(e);
    }

    /** The body of the drain loop: the successor is read before the element is unlinked. */
    method FireNext(ls: Node, ghost s: seq<seq<Node>>, ghost fired: seq<Node>) returns (next: Node)
      requires Valid() && loc < |s| && Drained(s, fired) && slots[loc] != [] && ls == slots[loc][0]
      modifies this`slots, heads, elems
      ensures Valid() && Drained(s, fired + [ls]) && next == heads[loc].next && (IsEmpty(next) <==> slots[loc] == [])
      ensures slots[loc] == old(slots)[loc][1..] && (slots[loc] != [] ==> next == slots[loc][0])
    {
      FirstOf(heads, slots, elems, loc);
      DrainedNext(s, fired);
      next := ls.next;
      FireFirst(ls);
      FirstOf(heads, slots, elems, loc);
    }

    /** The inner loop of _timeout_task: resume and unlink every element of the slot. */
    method Drain() returns (fired: seq<Node>)
      requires Valid()
      modifies this`slots, heads, elems
      ensures Valid() && fired == old(slots)[loc] && slots == old(slots)[loc := []]
    {
      ghost var s := slots;
      FirstOf(heads, slots, elems, loc);
      var ls := heads[loc].next;
      fired := [];
      while !IsEmpty(ls)
        invariant Valid() && |s| == |heads| && Drained(s, fired)
        invariant (IsEmpty(ls) <==> slots[loc] == []) && (slots[loc] != [] ==> ls == slots[loc][0])
        decreases |slots[loc]|
      {
        var next := FireNext(ls, s, fired);
        fired := fired + [ls];
        ls := next;
      }
    }

    /** One tick of the timer task. */
    method Tick() returns (fired: seq<Node>)
      requires Valid()
      modifies this, heads, elems
      ensures Valid() && (Wheel(), fired) == W.Tick(old(Wheel()))
    {
      Rotate();
      fired := Drain();
    }
  }
}
