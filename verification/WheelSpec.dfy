/**
 The timing wheel of time_wheel.c with the per-tick drain of event.c, and the plain
 "element to deadline" table it must agree with.
 */
module WheelSpec {
  import opened Common
  import opened Residue

  // ---- the wheel

  /** `slots[loc]` is the slot drained last; each slot holds its elements, latest armed first. */
  datatype Wheel<T> = Wheel(slots: seq<seq<T>>, loc: nat)

  const MIN_SIZE: nat := 60

  /** new_time_wheel */
  function NewWheel<T>(size: nat): Wheel<T> {
    Wheel(seq(if size > MIN_SIZE then size else MIN_SIZE, _ => []), 0)
  }

  /** The slot reached `timeout` + 1 ticks from now. */
  function SlotFor<T>(w: Wheel<T>, timeout: nat): (tv: nat)
    requires |w.slots| > 0
    ensures tv < |w.slots|
  {
    ModBound(|w.slots|, w.loc + timeout + 1);
    (w.loc + timeout + 1) % |w.slots|
  }

  /** wheel_update_element; a negative timeout means never and changes nothing. */
  function Update<T(==)>(w: Wheel<T>, e: T, timeout: int): Wheel<T>
    requires |w.slots| > 0
  {
    if timeout < 0 then w
    else
      var tv := SlotFor(w, timeout);
      var slots := Unlisted(w.slots, e);
      w.(slots := slots[tv := [e] + slots[tv]])
  }

  /** wheel_delete_element */
  function Cancel<T(==)>(w: Wheel<T>, e: T): Wheel<T> {
    w.(slots := Unlisted(w.slots, e))
  }

  /** wheel_rotate and the drain of the slot it reaches. */
  function Tick<T>(w: Wheel<T>): (Wheel<T>, seq<T>)
    requires |w.slots| > 0
  {
    var loc := (w.loc + 1) % |w.slots|;
    (Wheel(w.slots[loc := []], loc), w.slots[loc])
  }

  // ---- the table

  datatype Timer<T> = Timer(elem: T, deadline: nat)

  /** `now` counts ticks; timers are listed latest armed first. */
  datatype Table<T> = Table(size: nat, now: nat, timers: seq<Timer<T>>)

  /** The timers of the other elements. */
  function StillArmed<T(==)>(ts: seq<Timer<T>>, e: T): seq<Timer<T>> {
    if ts == [] then []
    else if ts[0].elem == e then StillArmed(ts[1..], e)
    else [ts[0]] + StillArmed(ts[1..], e)
  }

  /** The elements due at tick `d`. */
  function DueAt<T>(ts: seq<Timer<T>>, d: nat): seq<T> {
    if ts == [] then []
    else if ts[0].deadline == d then [ts[0].elem] + DueAt(ts[1..], d)
    else DueAt(ts[1..], d)
  }

  function NotDueAt<T>(ts: seq<Timer<T>>, d: nat): seq<Timer<T>> {
    if ts == [] then []
    else if ts[0].deadline == d then NotDueAt(ts[1..], d)
    else [ts[0]] + NotDueAt(ts[1..], d)
  }

  function Armed<T(==)>(r: Table<T>, e: T, timeout: int): Table<T>
    requires r.size > 0
  {
    if timeout < 0 then r
    else r.(timers := [Timer(e, r.now + timeout % r.size + 1)] + StillArmed(r.timers, e))
  }

  function Disarmed<T(==)>(r: Table<T>, e: T): Table<T> {
    r.(timers := StillArmed(r.timers, e))
  }

  function Elapsed<T>(r: Table<T>): (Table<T>, seq<T>) {
    (r.(now := r.now + 1, timers := NotDueAt(r.timers, r.now + 1)), DueAt(r.timers, r.now + 1))
  }

  // ---- runs of both

  datatype Op<T> = Arm(e: T, timeout: int) | Disarm(e: T) | TickOp

  /** What each tick of a run fires, in order. */
  function WheelRun<T(==)>(w: Wheel<T>, ops: seq<Op<T>>): seq<seq<T>>
    requires |w.slots| > 0
    decreases |ops|
  {
    if ops == [] then []
    else
      match ops[0]
      case Arm(e, k) => WheelRun(Update(w, e, k), ops[1..])
      case Disarm(e) => WheelRun(Cancel(w, e), ops[1..])
      case TickOp => [Tick(w).1] + WheelRun(Tick(w).0, ops[1..])
  }

  function TableRun<T(==)>(r: Table<T>, ops: seq<Op<T>>): seq<seq<T>>
    requires r.size > 0
    decreases |ops|
  {
    if ops == [] then []
    else
      match ops[0]
      case Arm(e, k) => TableRun(Armed(r, e, k), ops[1..])
      case Disarm(e) => TableRun(Disarmed(r, e), ops[1..])
      case TickOp => [Elapsed(r).1] + TableRun(Elapsed(r).0, ops[1..])
  }

  // ---- the wheel agrees with the table

  /** The elements whose deadline falls on slot j, in order. */
  function InSlot<T>(size: nat, ts: seq<Timer<T>>, j: nat): seq<T>
    requires size > 0
  {
    if ts == [] then []
    else if ts[0].deadline % size == j then [ts[0].elem] + InSlot(size, ts[1..], j)
    else InSlot(size, ts[1..], j)
  }

  /** Deadlines lie within one turn of the wheel. */
  ghost predicate Near<T>(r: Table<T>) {
    forall i :: 0 <= i < |r.timers| ==> r.now < r.timers[i].deadline <= r.now + r.size
  }

  ghost predicate Agree<T>(w: Wheel<T>, r: Table<T>) {
    && |w.slots| == r.size > 0 && w.loc == r.now % r.size && Near(r)
    && forall j :: 0 <= j < r.size ==> w.slots[j] == InSlot(r.size, r.timers, j)
  }

  lemma {:induction false} InSlotDisarmed<T>(size: nat, ts: seq<Timer<T>>, e: T, j: nat)
    requires size > 0
    ensures InSlot(size, StillArmed(ts, e), j) == Remove(InSlot(size, ts, j), e)
    decreases |ts|
  {
    if ts != [] {
      InSlotDisarmed(size, ts[1..], e, j);
      var rest := InSlot(size, ts[1..], j);
      assert ([ts[0].elem] + rest)[1..] == rest;
      assert ([ts[0]] + StillArmed(ts[1..], e))[1..] == StillArmed(ts[1..], e);
    }
  }

  lemma {:induction false} DisarmedSubset<T>(ts: seq<Timer<T>>, e: T, i: nat)
    requires i < |StillArmed(ts, e)|
    ensures StillArmed(ts, e)[i] in ts && StillArmed(ts, e)[i].elem != e
    decreases |ts|
  {
    if ts[0].elem == e {
      DisarmedSubset(ts[1..], e, i);
    } else if i > 0 {
      DisarmedSubset(ts[1..], e, i - 1);
    }
  }

  lemma ArmAgrees<T>(w: Wheel<T>, r: Table<T>, e: T, timeout: int)
    requires Agree(w, r)
    ensures Agree(Update(w, e, timeout), Armed(r, e, timeout))
  {
    if timeout >= 0 {
      var n := r.size;
      var r' := Armed(r, e, timeout);
      var w' := Update(w, e, timeout);
      var tv := (w.loc + timeout + 1) % n;
      SlotOfDeadline(n, r.now, timeout);
      ModBound(n, timeout);
      ModBound(n, w.loc + timeout + 1);
      forall i | 0 <= i < |r'.timers|
        ensures r'.now < r'.timers[i].deadline <= r'.now + n
      {
        if i > 0 { DisarmedSubset(r.timers, e, i - 1); }
      }
      forall j | 0 <= j < n
        ensures w'.slots[j] == InSlot(n, r'.timers, j)
      {
        InSlotDisarmed(n, r.timers, e, j);
        assert r'.timers[1..] == StillArmed(r.timers, e);
      }
    }
  }

  /** The slot chosen from the position of the wheel is the slot of the deadline. */
  lemma SlotOfDeadline(n: nat, now: nat, timeout: nat)
    requires n > 0
    ensures (now % n + timeout + 1) % n == (now + timeout % n + 1) % n
  {
    AddResidue(n, now, timeout + 1);
    AddResidue(n, timeout, now + 1);
  }

  lemma DisarmAgrees<T>(w: Wheel<T>, r: Table<T>, e: T)
    requires Agree(w, r)
    ensures Agree(Cancel(w, e), Disarmed(r, e))
  {
    var r' := Disarmed(r, e);
    forall i | 0 <= i < |r'.timers|
      ensures r'.now < r'.timers[i].deadline <= r'.now + r.size
    {
      DisarmedSubset(r.timers, e, i);
    }
    forall j | 0 <= j < r.size
      ensures Cancel(w, e).slots[j] == InSlot(r.size, r'.timers, j)
    {
      InSlotDisarmed(r.size, r.timers, e, j);
    }
  }

  /** Within one turn of now, only the deadline now + 1 falls on the slot reached next. */
  lemma DueExactlyOnNextSlot(n: nat, now: nat, d: nat)
    requires n > 0 && now < d <= now + n
    ensures d % n == (now + 1) % n <==> d == now + 1
  {
    if d % n == (now + 1) % n { SameResidue(n, now + 1, d); }
  }

  /** The slot reached next holds exactly what is due next. */
  lemma {:induction false} NextSlotIsDue<T>(n: nat, now: nat, ts: seq<Timer<T>>)
    requires n > 0 && forall i :: 0 <= i < |ts| ==> now < ts[i].deadline <= now + n
    ensures InSlot(n, ts, (now + 1) % n) == DueAt(ts, now + 1)
    decreases |ts|
  {
    if ts != [] {
      NextSlotIsDue(n, now, ts[1..]);
      DueExactlyOnNextSlot(n, now, ts[0].deadline);
    }
  }

  /** Draining it empties that slot and no other. */
  lemma {:induction false} DrainLeavesRest<T>(n: nat, now: nat, ts: seq<Timer<T>>, j: nat)
    requires n > 0 && j < n && forall i :: 0 <= i < |ts| ==> now < ts[i].deadline <= now + n
    ensures InSlot(n, NotDueAt(ts, now + 1), j) == if j == (now + 1) % n then [] else InSlot(n, ts, j)
    decreases |ts|
  {
    if ts != [] {
      DrainLeavesRest(n, now, ts[1..], j);
      DueExactlyOnNextSlot(n, now, ts[0].deadline);
      var rest := NotDueAt(ts[1..], now + 1);
      assert ([ts[0]] + rest)[1..] == rest;
    }
  }

  lemma {:induction false} NotDueIsLater<T>(n: nat, now: nat, ts: seq<Timer<T>>, i: nat)
    requires forall i :: 0 <= i < |ts| ==> now < ts[i].deadline <= now + n
    requires i < |NotDueAt(ts, now + 1)|
    ensures now + 1 < NotDueAt(ts, now + 1)[i].deadline <= now + n
    decreases |ts|
  {
    if ts[0].deadline == now + 1 {
      NotDueIsLater(n, now, ts[1..], i);
    } else if i > 0 {
      NotDueIsLater(n, now, ts[1..], i - 1);
    }
  }

  lemma TickAgrees<T>(w: Wheel<T>, r: Table<T>)
    requires Agree(w, r)
    ensures Agree(Tick(w).0, Elapsed(r).0) && Tick(w).1 == Elapsed(r).1
  {
    var n := r.size;
    NextResidue(n, r.now);
    ModBound(n, r.now + 1);
    NextSlotIsDue(n, r.now, r.timers);
    var w', r' := Tick(w).0, Elapsed(r).0;
    forall i | 0 <= i < |r'.timers|
      ensures r'.now < r'.timers[i].deadline <= r'.now + n
    {
      NotDueIsLater(n, r.now, r.timers, i);
    }
    forall j | 0 <= j < n
      ensures w'.slots[j] == InSlot(n, r'.timers, j)
    {
      DrainLeavesRest(n, r.now, r.timers, j);
    }
  }

  lemma {:induction false} RunsAgree<T>(w: Wheel<T>, r: Table<T>, ops: seq<Op<T>>)
    requires Agree(w, r)
    ensures WheelRun(w, ops) == TableRun(r, ops)
    decreases |ops|
  {
    if ops != [] {
      match ops[0]
      case Arm(e, k) =>
        ArmAgrees(w, r, e, k);
        RunsAgree(Update(w, e, k), Armed(r, e, k), ops[1..]);
      case Disarm(e) =>
        DisarmAgrees(w, r, e);
        RunsAgree(Cancel(w, e), Disarmed(r, e), ops[1..]);
      case TickOp =>
        TickAgrees(w, r);
        RunsAgree(Tick(w).0, Elapsed(r).0, ops[1..]);
    }
  }

  /** Over any run of arming, cancelling and ticking, the wheel fires what the table says, tick by tick and in order. */
  lemma {:induction false} WheelRefinesTable<T>(size: nat, ops: seq<Op<T>>)
    ensures var n := if size > MIN_SIZE then size else MIN_SIZE;
            WheelRun(NewWheel(size), ops) == TableRun(Table(n, 0, []), ops)
  {
    var n := if size > MIN_SIZE then size else MIN_SIZE;
    ResIsMod(n, 0);
    RunsAgree(NewWheel<T>(size), Table(n, 0, []), ops);
  }

  // ---- when an armed element fires

  /** The operation re-arms or cancels `e`; a negative timeout does neither. */
  predicate Touches<T(==)>(op: Op<T>, e: T) {
    match op
    case Arm(x, k) => x == e && k >= 0
    case Disarm(x) => x == e
    case TickOp => false
  }

  /** How many entries `e` has. */
  ghost function Entries<T>(ts: seq<Timer<T>>, e: T): nat {
    if ts == [] then 0 else (if ts[0].elem == e then 1 else 0) + Entries(ts[1..], e)
  }

  /** The one entry of `e`, if any, has deadline `d`, and it is there exactly while `d` is ahead. */
  ghost predicate DueOnce<T>(r: Table<T>, e: T, d: nat) {
    && Entries(r.timers, e) <= 1
    && (forall i :: 0 <= i < |r.timers| && r.timers[i].elem == e ==> r.timers[i].deadline == d)
    && (Timer(e, d) in r.timers <==> d > r.now)
  }

  lemma {:induction false} DisarmedMember<T>(ts: seq<Timer<T>>, e: T, t: Timer<T>)
    ensures t in StillArmed(ts, e) <==> t in ts && t.elem != e
    ensures Entries(StillArmed(ts, e), t.elem) == if t.elem == e then 0 else Entries(ts, t.elem)
    decreases |ts|
  {
    if ts != [] {
      DisarmedMember(ts[1..], e, t);
      assert ts == [ts[0]] + ts[1..];
      assert ([ts[0]] + StillArmed(ts[1..], e))[1..] == StillArmed(ts[1..], e);
    }
  }

  lemma {:induction false} NotDueMember<T>(ts: seq<Timer<T>>, d: nat, t: Timer<T>)
    ensures t in NotDueAt(ts, d) <==> t in ts && t.deadline != d
    ensures Entries(NotDueAt(ts, d), t.elem) <= Entries(ts, t.elem)
    decreases |ts|
  {
    if ts != [] {
      NotDueMember(ts[1..], d, t);
      assert ts == [ts[0]] + ts[1..];
      assert ([ts[0]] + NotDueAt(ts[1..], d))[1..] == NotDueAt(ts[1..], d);
    }
  }

  lemma {:induction false} DueMember<T>(ts: seq<Timer<T>>, d: nat, e: T)
    ensures e in DueAt(ts, d) <==> Timer(e, d) in ts
    ensures multiset(DueAt(ts, d))[e] <= Entries(ts, e)
    decreases |ts|
  {
    if ts != [] {
      DueMember(ts[1..], d, e);
      assert ts == [ts[0]] + ts[1..];
    }
  }

  /** An operation that does not touch `e` leaves it due as before; a tick fires it exactly at its deadline. */
  lemma UntouchedStaysDue<T>(r: Table<T>, e: T, d: nat, op: Op<T>)
    requires r.size > 0 && DueOnce(r, e, d) && !Touches(op, e)
    ensures match op
            case Arm(x, k) => DueOnce(Armed(r, x, k), e, d)
            case Disarm(x) => DueOnce(Disarmed(r, x), e, d)
            case TickOp => DueOnce(Elapsed(r).0, e, d) && multiset(Elapsed(r).1)[e] == if d == r.now + 1 then 1 else 0
  {
    match op
    case Arm(x, k) => if k >= 0 { DisarmLeavesDue(r, e, d, x); ArmLeavesDue(r, e, d, x, k); }
    case Disarm(x) => DisarmLeavesDue(r, e, d, x);
    case TickOp => TickLeavesDue(r, e, d); TickFires(r, e, d);
  }

  lemma TickLeavesDue<T>(r: Table<T>, e: T, d: nat)
    requires DueOnce(r, e, d)
    ensures DueOnce(Elapsed(r).0, e, d)
  {
    var r' := Elapsed(r).0;
    NotDueMember(r.timers, r.now + 1, Timer(e, d));
    forall i | 0 <= i < |r'.timers| && r'.timers[i].elem == e ensures r'.timers[i].deadline == d {
      NotDueMember(r.timers, r.now + 1, r'.timers[i]);
    }
  }

  lemma TickFires<T>(r: Table<T>, e: T, d: nat)
    requires DueOnce(r, e, d)
    ensures multiset(Elapsed(r).1)[e] == if d == r.now + 1 then 1 else 0
  {
    DueMember(r.timers, r.now + 1, e);
  }

  lemma DisarmLeavesDue<T>(r: Table<T>, e: T, d: nat, x: T)
    requires DueOnce(r, e, d) && x != e
    ensures DueOnce(Disarmed(r, x), e, d)
  {
    var r' := Disarmed(r, x);
    DisarmedMember(r.timers, x, Timer(e, d));
    forall i | 0 <= i < |r'.timers| && r'.timers[i].elem == e ensures r'.timers[i].deadline == d {
      DisarmedMember(r.timers, x, r'.timers[i]);
    }
  }

  lemma ArmLeavesDue<T>(r: Table<T>, e: T, d: nat, x: T, k: nat)
    requires r.size > 0 && DueOnce(Disarmed(r, x), e, d) && x != e
    ensures DueOnce(Armed(r, x, k), e, d)
  {
    assert Armed(r, x, k).timers[1..] == StillArmed(r.timers, x);
  }

  lemma {:induction false} FiresAtDeadline<T>(r: Table<T>, e: T, d: nat, ops: seq<Op<T>>, i: nat)
    requires r.size > 0 && DueOnce(r, e, d) && (forall j :: 0 <= j < |ops| ==> !Touches(ops[j], e))
    requires i < |TableRun(r, ops)|
    ensures multiset(TableRun(r, ops)[i])[e] == if r.now + i + 1 == d then 1 else 0
    decreases |ops|
  {
    UntouchedStaysDue(r, e, d, ops[0]);
    var rest := ops[1..];
    match ops[0]
    case Arm(x, k) =>
      assert TableRun(r, ops) == TableRun(Armed(r, x, k), rest);
      FiresAtDeadline(Armed(r, x, k), e, d, rest, i);
    case Disarm(x) =>
      assert TableRun(r, ops) == TableRun(Disarmed(r, x), rest);
      FiresAtDeadline(Disarmed(r, x), e, d, rest, i);
    case TickOp =>
      assert TableRun(r, ops) == [Elapsed(r).1] + TableRun(Elapsed(r).0, rest);
      if i > 0 { FiresAtDeadline(Elapsed(r).0, e, d, rest, i - 1); }
  }

  lemma JustArmedIsDue<T>(r: Table<T>, e: T, k: nat)
    requires r.size > 0
    ensures DueOnce(Armed(r, e, k), e, r.now + k % r.size + 1)
  {
    ModBound(r.size, k);
    var r' := Armed(r, e, k);
    DisarmedMember(r.timers, e, Timer(e, 0));
    assert r'.timers[1..] == StillArmed(r.timers, e);
    forall i | 0 <= i < |r'.timers| && r'.timers[i].elem == e ensures r'.timers[i].deadline == r.now + k % r.size + 1 {
      if i > 0 { DisarmedSubset(r.timers, e, i - 1); }
    }
  }

  lemma {:induction false} TableAfter<T>(
      size: nat, r: Table<T>, w: Wheel<T>, past: seq<Op<T>>) returns (r': Table<T>, w': Wheel<T>)
    requires Agree(w, r) && r.size == size
    ensures Agree(w', r') && r'.size == size
    ensures forall ops :: WheelRun(w, past + ops) == WheelRun(w, past) + WheelRun(w', ops)
    decreases |past|
  {
    if past == [] {
      r', w' := r, w;
      forall ops ensures WheelRun(w, past + ops) == WheelRun(w, past) + WheelRun(w', ops) { assert past + ops == ops; }
    } else {
      var w1: Wheel<T>, r1: Table<T>;
      match past[0] {
        case Arm(e, k) => ArmAgrees(w, r, e, k); w1, r1 := Update(w, e, k), Armed(r, e, k);
        case Disarm(e) => DisarmAgrees(w, r, e); w1, r1 := Cancel(w, e), Disarmed(r, e);
        case TickOp => TickAgrees(w, r); w1, r1 := Tick(w).0, Elapsed(r).0;
      }
      r', w' := TableAfter(size, r1, w1, past[1..]);
      forall ops ensures WheelRun(w, past + ops) == WheelRun(w, past) + WheelRun(w', ops) {
        assert (past + ops)[1..] == past[1..] + ops;
        assert WheelRun(w1, past[1..] + ops) == WheelRun(w1, past[1..]) + WheelRun(w', ops);
      }
    }
  }

  lemma FiresOnTimeFrom<T>(w: Wheel<T>, r: Table<T>, e: T, k: nat, ops: seq<Op<T>>, i: nat)
    requires Agree(w, r) && forall j :: 0 <= j < |ops| ==> !Touches(ops[j], e)
    ensures var out := WheelRun(Update(w, e, k), ops);
            i < |out| ==> multiset(out[i])[e] == if i == k % r.size then 1 else 0
  {
    ArmAgrees(w, r, e, k);
    RunsAgree(Update(w, e, k), Armed(r, e, k), ops);
    JustArmedIsDue(r, e, k);
    if i < |TableRun(Armed(r, e, k), ops)| { FiresAtDeadline(Armed(r, e, k), e, r.now + k % r.size + 1, ops, i); }
  }

  /**
   After any history, an element armed with timeout k >= 0 and not touched again is fired
   exactly once: by the (k mod size) + 1st tick from then on, which is tick k + 1 when k is
   below the size.
   */
  lemma {:induction false} FiresExactlyOnceOnTime<T>(size: nat, past: seq<Op<T>>, e: T, k: nat, ops: seq<Op<T>>, i: nat)
    requires forall j :: 0 <= j < |ops| ==> !Touches(ops[j], e)
    ensures var n := if size > MIN_SIZE then size else MIN_SIZE;
            var before := |WheelRun(NewWheel(size), past)|;
            var out := WheelRun(NewWheel(size), past + [Arm(e, k)] + ops);
            before + i < |out| ==> multiset(out[before + i])[e] == if i == k % n then 1 else 0
  {
    var n := if size > MIN_SIZE then size else MIN_SIZE;
    ResIsMod(n, 0);
    var r, w := TableAfter(n, Table(n, 0, []), NewWheel<T>(size), past);
    var arm := [Arm(e, k)] + ops;
    assert past + [Arm(e, k)] + ops == past + arm;
    assert arm[1..] == ops;
    assert WheelRun(w, arm) == WheelRun(Update(w, e, k), ops);
    FiresOnTimeFrom(w, r, e, k, ops, i);
  }
}
