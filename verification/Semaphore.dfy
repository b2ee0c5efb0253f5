/**
 The counting semaphore of co_sem.c, at the grain of single atomic accesses.  The counter
 is unbounded; the source's is a 32-bit int assumed not to overflow.
 */
module Semaphore {
  import opened Common

  type Task = nat

  datatype Pc =
    | Idle
    | WaitDec                       // co_sem_wait: decrement, test for negative
    | WaitSpin                      //   take wait_lock
    | WaitCheck                     //   read the counter again
    | WaitLeave                     //   it recovered: drop wait_lock and return
    | WaitAppend                    //   append to wait_list
    | WaitUnspin                    //   drop wait_lock
    | Parked                        //   yielded, waiting for a resume, then decrement again
    | TryDec                        // co_sem_try_wait: decrement, test for negative
    | TrySpin                       //   take wait_lock
    | TryCheck                      //   read the counter again
    | TryLeave                      //   drop wait_lock and return
    | TryUndo                       //   give the decrement back
    | PostInc                       // co_sem_post: increment, test for negative
    | PostSpin                      //   take wait_lock
    | PostCheck                     //   read the counter again
    | PostPop                       //   unlink the first waiter, if any
    | PostUnspin(popped: Option<Task>) // drop wait_lock
    | PostWake(popped: Option<Task>)   // resume it

  /**
   `posts`, `granted`, `undone` and `spent` are history: increments by co_sem_post, calls
   that succeeded, decrements given back, and decrements of calls that went on to park.
   */
  datatype State = State(
    value: int, spin: Option<Task>, waiters: seq<Task>, pc: seq<Pc>,
    posts: nat, granted: nat, decs: nat, undone: nat, spent: nat)

  datatype Call = Wait | TryWait | Post
  datatype Action = Do(t: Task, call: Call) | Step(t: Task)

  function Init(n: nat, count: nat): State {
    State(count, None, [], seq(n, _ => Idle), 0, 0, 0, 0, 0)
  }

  function At(s: State, t: Task, p: Pc): State
    requires t < |s.pc|
  {
    s.(pc := s.pc[t := p])
  }

  function Resume(s: State, u: Option<Task>): State {
    if u.Some? && u.value < |s.pc| && s.pc[u.value].Parked? then At(s, u.value, WaitDec) else s
  }

  predicate Enabled(s: State, a: Action) {
    a.t < |s.pc| &&
    match a
    case Do(t, _) => s.pc[t].Idle?
    case Step(t) =>
      match s.pc[t]
      case Idle | Parked => false
      case WaitSpin | TrySpin | PostSpin => s.spin.None?
      case _ => true
  }

  function Decrement(s: State, t: Task, blocked: Pc): State
    requires t < |s.pc|
  {
    var s1 := s.(value := s.value - 1, decs := s.decs + 1);
    if s1.value < 0 then At(s1, t, blocked) else At(s1, t, Idle).(granted := s.granted + 1)
  }

  function Advance(s: State, t: Task): State
    requires Enabled(s, Step(t))
  {
    match s.pc[t]
    case WaitDec => Decrement(s, t, WaitSpin)
    case WaitSpin => At(s, t, WaitCheck).(spin := Some(t))
    case WaitCheck =>
      if s.value >= 0 then At(s, t, WaitLeave).(granted := s.granted + 1)
      else At(s, t, WaitAppend)
    case WaitLeave => At(s, t, Idle).(spin := None)
    case WaitAppend => At(s, t, WaitUnspin).(waiters := s.waiters + [t], spent := s.spent + 1)
    case WaitUnspin => At(s, t, Parked).(spin := None)
    case TryDec => Decrement(s, t, TrySpin)
    case TrySpin => At(s, t, TryCheck).(spin := Some(t))
    case TryCheck =>
      if s.value >= 0 then At(s, t, TryLeave).(granted := s.granted + 1)
      else At(s, t, TryUndo)
    case TryUndo => At(s, t, TryLeave).(value := s.value + 1, undone := s.undone + 1)
    case TryLeave => At(s, t, Idle).(spin := None)
    case PostInc =>
      At(s, t, if s.value + 1 < 0 then PostSpin else Idle).(value := s.value + 1, posts := s.posts + 1)
    case PostSpin => At(s, t, PostCheck).(spin := Some(t))
    case PostCheck => At(s, t, if s.value >= 0 then PostUnspin(None) else PostPop)
    case PostPop =>
      if s.waiters == [] then At(s, t, PostUnspin(None))
      else At(s, t, PostUnspin(Some(s.waiters[0]))).(waiters := s.waiters[1..])
    case PostUnspin(u) => At(s, t, PostWake(u)).(spin := None)
    case PostWake(u) => Resume(At(s, t, Idle), u)
  }

  function Apply(s: State, a: Action): State
    requires Enabled(s, a)
  {
    match a
    case Do(t, Wait) => At(s, t, WaitDec)
    case Do(t, TryWait) => At(s, t, TryDec)
    case Do(t, Post) => At(s, t, PostInc)
    case Step(t) => Advance(s, t)
  }

  predicate Executable(s: State, acts: seq<Action>)
    decreases |acts|
  {
    acts == [] || (Enabled(s, acts[0]) && Executable(Apply(s, acts[0]), acts[1..]))
  }

  function Exec(s: State, acts: seq<Action>): State
    requires Executable(s, acts)
    decreases |acts|
  {
    if acts == [] then s else Exec(Apply(s, acts[0]), acts[1..])
  }

  // ---- accounting

  /** Decremented below zero and not yet decided. */
  predicate Pending(p: Pc) {
    p.WaitSpin? || p.WaitCheck? || p.WaitAppend? || p.TrySpin? || p.TryCheck? || p.TryUndo?
  }

  function Weight(p: Pc): nat { if Pending(p) then 1 else 0 }

  function PendingCount(pc: seq<Pc>): nat { Sum(Weight, pc) }

  /** Every decrement is granted, given back, spent on parking, or still undecided. */
  ghost predicate Inv(count: nat, s: State) {
    && s.value == count + s.posts - (s.decs - s.undone)
    && s.decs == s.granted + s.undone + s.spent + PendingCount(s.pc)
    && s.granted <= count + s.posts
  }

  /** An action moves its own task, and one more when it resumes one. */
  lemma PcShape(s: State, a: Action)
    requires Enabled(s, a)
    ensures var pc, pc' := s.pc, Apply(s, a).pc;
            && |pc'| == |pc|
            && (|| pc' == pc[a.t := pc'[a.t]]
                || (&& a.Step? && pc[a.t].PostWake? && pc[a.t].popped.Some?
                    && var u := pc[a.t].popped.value;
                       u < |pc| && u != a.t && pc[u].Parked? && pc' == pc[a.t := Idle][u := WaitDec]))
  {
    if a.Step? && s.pc[a.t].PostWake? {
      assert Apply(s, a) == Resume(At(s, a.t, Idle), s.pc[a.t].popped);
    }
  }

  /** A sum over the program counters changes by the move of the task that moves. */
  lemma SumFollows(w: Pc -> nat, s: State, a: Action)
    requires Enabled(s, a) && w(Parked) == w(WaitDec)
    ensures Sum(w, Apply(s, a).pc) == Sum(w, s.pc) - w(s.pc[a.t]) + w(Apply(s, a).pc[a.t])
  {
    var pc, pc' := s.pc, Apply(s, a).pc;
    PcShape(s, a);
    if pc' == pc[a.t := pc'[a.t]] {
      SumUpdate(w, pc, a.t, pc'[a.t]);
    } else {
      SumUpdate(w, pc, a.t, Idle);
      SumUpdate(w, pc[a.t := Idle], pc[a.t].popped.value, WaitDec);
    }
  }

  /** A call succeeds only at a moment when the counter is not negative. */
  lemma GrantsWhenNotNegative(s: State, a: Action)
    requires Enabled(s, a)
    ensures var s' := Apply(s, a);
            s'.granted == s.granted || (s'.granted == s.granted + 1 && s'.value >= 0 && s'.posts == s.posts)
    ensures Apply(s, a).posts >= s.posts
  {}

  lemma CounterLedger(s: State, a: Action)
    requires Enabled(s, a)
    ensures var s' := Apply(s, a);
            s'.value - s.value == (s'.posts - s.posts) - (s'.decs - s.decs) + (s'.undone - s.undone)
  {}

  /** Every decrement an action makes or settles shows in the program counter of its task. */
  lemma DecrementLedger(s: State, a: Action)
    requires Enabled(s, a)
    ensures var s' := Apply(s, a);
            s'.decs - s.decs ==
              (s'.granted - s.granted) + (s'.undone - s.undone) + (s'.spent - s.spent)
              + Weight(s'.pc[a.t]) - Weight(s.pc[a.t])
  {}

  lemma Conserves(count: nat, s: State, a: Action)
    requires Enabled(s, a)
    requires s.value == count + s.posts - (s.decs - s.undone)
    requires s.decs == s.granted + s.undone + s.spent + PendingCount(s.pc)
    ensures var s' := Apply(s, a);
            && s'.value == count + s'.posts - (s'.decs - s'.undone)
            && s'.decs == s'.granted + s'.undone + s'.spent + PendingCount(s'.pc)
  {
    CounterLedger(s, a);
    DecrementLedger(s, a);
    SumFollows(Weight, s, a);
  }

  lemma KeepsInv(count: nat, s: State, a: Action)
    requires Inv(count, s) && Enabled(s, a)
    ensures Inv(count, Apply(s, a))
  {
    Conserves(count, s, a);
    GrantsWhenNotNegative(s, a);
  }

  lemma {:induction false} RunKeepsInv(count: nat, s: State, acts: seq<Action>)
    requires Inv(count, s) && Executable(s, acts)
    ensures Inv(count, Exec(s, acts))
    decreases |acts|
  {
    if acts != [] {
      KeepsInv(count, s, acts[0]);
      RunKeepsInv(count, Apply(s, acts[0]), acts[1..]);
    }
  }

  /** Under every interleaving, no more calls succeed than the initial count plus the posts. */
  lemma {:induction false} NeverOverGranted(n: nat, count: nat, acts: seq<Action>)
    requires Executable(Init(n, count), acts)
    ensures var s := Exec(Init(n, count), acts);
            && s.granted <= count + s.posts
            && s.value == count + s.posts - (s.decs - s.undone)
            && s.granted + s.spent <= s.decs - s.undone
  {
    SumZero(Weight, Init(n, count).pc);
    RunKeepsInv(count, Init(n, count), acts);
  }

  // ---- who is on the wait list

  predicate HoldsSpin(p: Pc) {
    p.WaitCheck? || p.WaitLeave? || p.WaitAppend? || p.WaitUnspin? || p.TryCheck? || p.TryLeave? || p.TryUndo? ||
    p.PostCheck? || p.PostPop? || p.PostUnspin?
  }

  function Popped(p: Pc): Option<Task> { if p.PostUnspin? || p.PostWake? then p.popped else None }

  ghost predicate SpinOk(s: State) {
    && (s.spin.Some? ==> s.spin.value < |s.pc|)
    && forall t :: 0 <= t < |s.pc| ==> (HoldsSpin(s.pc[t]) <==> s.spin == Some(t))
  }

  /** The list holds parked tasks, or one about to drop wait_lock, each once. */
  ghost predicate WaitersOk(s: State) {
    && Distinct(s.waiters)
    && (forall t :: t in s.waiters ==> t < |s.pc| && (s.pc[t].WaitUnspin? || s.pc[t].Parked?))
    && (forall t :: 0 <= t < |s.pc| && s.pc[t].WaitUnspin? ==> t in s.waiters)
  }

  ghost predicate InHandOf(s: State, t: Task, u: Task) {
    u < |s.pc| && Popped(s.pc[u]) == Some(t)
  }

  /** A popped task is parked and off the list; a parked task is on the list or popped. */
  ghost predicate ParkedOk(s: State) {
    && (forall u :: 0 <= u < |s.pc| && Popped(s.pc[u]).Some? ==>
         var t := Popped(s.pc[u]).value;
         t < |s.pc| && s.pc[t].Parked? && t !in s.waiters)
    && (forall u, v :: 0 <= u < |s.pc| && 0 <= v < |s.pc| && u != v && Popped(s.pc[u]).Some? ==>
         Popped(s.pc[u]) != Popped(s.pc[v]))
    && (forall t :: 0 <= t < |s.pc| && s.pc[t].Parked? ==> t in s.waiters || exists u :: InHandOf(s, t, u))
  }

  ghost predicate ListInv(s: State) { SpinOk(s) && WaitersOk(s) && ParkedOk(s) }

  /** Another task moves only when this action resumes it. */
  lemma PcFrame(s: State, a: Action, x: Task)
    requires Enabled(s, a) && x < |s.pc|
    ensures |Apply(s, a).pc| == |s.pc|
    ensures x != a.t ==>
      || Apply(s, a).pc[x] == s.pc[x]
      || (&& a.Step? && s.pc[a.t].PostWake? && s.pc[a.t].popped == Some(x)
          && s.pc[x].Parked? && Apply(s, a).pc[x].WaitDec?)
  {
    PcShape(s, a);
  }

  /** What the mover has in hand changes only when it pops or resumes. */
  lemma HandChange(s: State, a: Action)
    requires Enabled(s, a)
    ensures |Apply(s, a).pc| == |s.pc|
    ensures !s.pc[a.t].PostPop? ==>
              Popped(Apply(s, a).pc[a.t]) == if s.pc[a.t].PostWake? then None else Popped(s.pc[a.t])
  {}

  lemma WaitListChange(s: State, a: Action)
    requires Enabled(s, a)
    ensures var s' := Apply(s, a);
            || (s'.waiters == s.waiters && !(a.Step? && s.pc[a.t].WaitAppend?))
            || (s'.waiters == s.waiters + [a.t] && a.Step? && s.pc[a.t].WaitAppend? && s'.pc == s.pc[a.t := WaitUnspin])
            || (s.waiters != [] && s'.waiters == s.waiters[1..] && a.Step? && s.pc[a.t].PostPop? &&
                s'.pc == s.pc[a.t := PostUnspin(Some(s.waiters[0]))])
  {}

  lemma SpinChange(s: State, a: Action)
    requires Enabled(s, a) && (HoldsSpin(s.pc[a.t]) <==> s.spin == Some(a.t))
    ensures var s' := Apply(s, a);
            && (HoldsSpin(s'.pc[a.t]) <==> s'.spin == Some(a.t))
            && (s'.spin == s.spin || s'.spin == Some(a.t) || (s'.spin.None? && s.spin == Some(a.t)))
            && (s'.spin == Some(a.t) ==> s.spin.None? || s.spin == Some(a.t))
  {}

  lemma KeepsSpin(s: State, a: Action)
    requires SpinOk(s) && Enabled(s, a)
    ensures SpinOk(Apply(s, a))
  {
    var s' := Apply(s, a);
    SpinChange(s, a);
    PcFrame(s, a, a.t);
    forall x | 0 <= x < |s'.pc| ensures HoldsSpin(s'.pc[x]) <==> s'.spin == Some(x) {
      PcFrame(s, a, x);
      assert HoldsSpin(s.pc[x]) <==> s.spin == Some(x);
    }
  }

  lemma KeepsWaiters(s: State, a: Action)
    requires SpinOk(s) && WaitersOk(s) && ParkedOk(s) && Enabled(s, a)
    ensures WaitersOk(Apply(s, a))
  {
    var s' := Apply(s, a);
    WaitListChange(s, a);
    if s'.waiters == s.waiters + [a.t] { assert a.t !in s.waiters; }
    forall x | x in s'.waiters ensures x < |s'.pc| && (s'.pc[x].WaitUnspin? || s'.pc[x].Parked?) {
      if x in s.waiters { StaysListed(s, a, x); }
    }
    forall x | 0 <= x < |s'.pc| && s'.pc[x].WaitUnspin? ensures x in s'.waiters { LeaverListed(s, a, x); }
  }

  lemma StaysListed(s: State, a: Action, x: Task)
    requires WaitersOk(s) && ParkedOk(s) && Enabled(s, a) && x in s.waiters
    ensures x < |s.pc| && |Apply(s, a).pc| == |s.pc|
    ensures Apply(s, a).pc[x].WaitUnspin? || Apply(s, a).pc[x].Parked?
  {
    PcFrame(s, a, x);
  }

  lemma LeaverListed(s: State, a: Action, x: Task)
    requires SpinOk(s) && WaitersOk(s) && Enabled(s, a) && x < |Apply(s, a).pc| && Apply(s, a).pc[x].WaitUnspin?
    ensures x in Apply(s, a).waiters
  {
    PcFrame(s, a, a.t);
    PcFrame(s, a, x);
    WaitListChange(s, a);
    if x != a.t {
      assert HoldsSpin(s.pc[x]) <==> s.spin == Some(x);
      assert HoldsSpin(s.pc[a.t]) <==> s.spin == Some(a.t);
    }
  }

  /** The list head seen by a post under wait_lock has really parked. */
  lemma HeadIsParked(s: State, u: Task)
    requires SpinOk(s) && WaitersOk(s) && u < |s.pc| && s.pc[u].PostPop? && s.waiters != []
    ensures var h := s.waiters[0]; h < |s.pc| && h != u && s.pc[h].Parked? && h !in s.waiters[1..]
  {
    var h := s.waiters[0];
    assert h in s.waiters;
    assert HoldsSpin(s.pc[u]) && (s.pc[h].WaitUnspin? ==> HoldsSpin(s.pc[h]));
  }

  /** A task in a hand was already there, or is the list head this action unlinked. */
  lemma InHandBefore(s: State, a: Action, u: Task)
    requires Enabled(s, a) && u < |s.pc| && u < |Apply(s, a).pc| && Popped(Apply(s, a).pc[u]).Some?
    ensures || Popped(s.pc[u]) == Popped(Apply(s, a).pc[u])
            || (&& a == Step(u) && s.pc[u].PostPop? && s.waiters != []
                && Popped(Apply(s, a).pc[u]) == Some(s.waiters[0]))
  {
    PcFrame(s, a, u);
    HandChange(s, a);
  }

  lemma HandsApart(s: State, a: Action, u: Task, v: Task)
    requires WaitersOk(s) && ParkedOk(s) && Enabled(s, a)
    requires u < |s.pc| && v < |s.pc| && u != v && |Apply(s, a).pc| == |s.pc| && Popped(Apply(s, a).pc[u]).Some?
    ensures Popped(Apply(s, a).pc[u]) != Popped(Apply(s, a).pc[v])
  {
    InHandBefore(s, a, u);
    if Popped(Apply(s, a).pc[v]).Some? {
      InHandBefore(s, a, v);
      if s.waiters != [] { assert s.waiters[0] in s.waiters; }
    }
  }

  lemma PoppedStays(s: State, a: Action, u: Task)
    requires ListInv(s) && Enabled(s, a)
    requires u < |s.pc| && u < |Apply(s, a).pc| && Popped(Apply(s, a).pc[u]).Some?
    ensures var s' := Apply(s, a); var t := Popped(s'.pc[u]).value;
            t < |s'.pc| && s'.pc[t].Parked? && t !in s'.waiters
  {
    InHandBefore(s, a, u);
    if Popped(s.pc[u]) == Popped(Apply(s, a).pc[u]) { OldHandStays(s, a, u); } else { HeadIsParked(s, u); }
  }

  lemma OldHandStays(s: State, a: Action, u: Task)
    requires WaitersOk(s) && ParkedOk(s) && Enabled(s, a) && u < |s.pc| && u < |Apply(s, a).pc|
    requires Popped(s.pc[u]).Some? && Popped(s.pc[u]) == Popped(Apply(s, a).pc[u])
    ensures var s' := Apply(s, a); var t := Popped(s'.pc[u]).value;
            t < |s'.pc| && s'.pc[t].Parked? && t !in s'.waiters
  {
    var t := Popped(s.pc[u]).value;
    WaitListChange(s, a);
    PcFrame(s, a, t);
    if s.pc[a.t].PostWake? && s.pc[a.t].popped == Some(t) { HandChange(s, a); }
  }

  lemma KeepsParked(s: State, a: Action)
    requires ListInv(s) && Enabled(s, a)
    ensures ParkedOk(Apply(s, a))
  {
    var s' := Apply(s, a);
    PcFrame(s, a, a.t);
    forall u | 0 <= u < |s'.pc| && Popped(s'.pc[u]).Some?
      ensures var t := Popped(s'.pc[u]).value; t < |s'.pc| && s'.pc[t].Parked? && t !in s'.waiters
    {
      PoppedStays(s, a, u);
    }
    forall u, v | 0 <= u < |s'.pc| && 0 <= v < |s'.pc| && u != v && Popped(s'.pc[u]).Some?
      ensures Popped(s'.pc[u]) != Popped(s'.pc[v])
    {
      HandsApart(s, a, u, v);
    }
    forall x | 0 <= x < |s'.pc| && s'.pc[x].Parked? ensures x in s'.waiters || exists u :: InHandOf(s', x, u) {
      ParkedAccounted(s, a, x);
    }
  }

  lemma ParkedAccounted(s: State, a: Action, x: Task)
    requires WaitersOk(s) && ParkedOk(s) && Enabled(s, a)
    requires x < |s.pc| && x < |Apply(s, a).pc| && Apply(s, a).pc[x].Parked?
    ensures x in Apply(s, a).waiters || exists u :: InHandOf(Apply(s, a), x, u)
  {
    PcFrame(s, a, x);
    if x == a.t {
      JustParked(s, a);
    } else if x in s.waiters {
      ListedOrPopped(s, a, x);
    } else {
      var u :| InHandOf(s, x, u);
      StaysInHand(s, a, x, u);
    }
  }

  lemma JustParked(s: State, a: Action)
    requires WaitersOk(s) && Enabled(s, a) && Apply(s, a).pc[a.t].Parked?
    ensures a.t in Apply(s, a).waiters
  {}

  lemma ListedOrPopped(s: State, a: Action, x: Task)
    requires Enabled(s, a) && x in s.waiters
    ensures x in Apply(s, a).waiters || InHandOf(Apply(s, a), x, a.t)
  {
    WaitListChange(s, a);
  }

  lemma StaysInHand(s: State, a: Action, x: Task, u: Task)
    requires Enabled(s, a) && InHandOf(s, x, u) && x < |s.pc| && s.pc[x].Parked?
    requires x < |Apply(s, a).pc| && Apply(s, a).pc[x].Parked?
    ensures InHandOf(Apply(s, a), x, u)
  {
    PcFrame(s, a, u);
    if u == a.t {
      HandChange(s, a);
      if s.pc[u].PostWake? { PostWakes(s, u); }
    }
  }

  lemma PostWakes(s: State, u: Task)
    requires Enabled(s, Step(u)) && s.pc[u].PostWake? && s.pc[u].popped.Some?
    requires var x := s.pc[u].popped.value; x < |s.pc| && s.pc[x].Parked?
    ensures !Advance(s, u).pc[s.pc[u].popped.value].Parked?
  {}

  lemma {:induction false} RunKeepsList(s: State, acts: seq<Action>)
    requires ListInv(s) && Executable(s, acts)
    ensures ListInv(Exec(s, acts)) && |Exec(s, acts).pc| == |s.pc|
    decreases |acts|
  {
    if acts != [] {
      KeepsSpin(s, acts[0]);
      KeepsWaiters(s, acts[0]);
      KeepsParked(s, acts[0]);
      PcFrame(s, acts[0], acts[0].t);
      RunKeepsList(Apply(s, acts[0]), acts[1..]);
    }
  }

  // ---- a negative counter has somebody to answer for it

  /** Decrements that a try-wait will give back unless it succeeds. */
  function TryWeight(p: Pc): nat { if p.TrySpin? || p.TryCheck? || p.TryUndo? then 1 else 0 }

  function Tries(s: State): nat { Sum(TryWeight, s.pc) }

  predicate InWait(p: Pc) {
    p.WaitDec? || p.WaitSpin? || p.WaitCheck? || p.WaitAppend? || p.WaitUnspin? || p.Parked?
  }

  lemma TryLedger(s: State, a: Action)
    requires Enabled(s, a)
    ensures var s' := Apply(s, a);
            var inc := if a.Step? && s.pc[a.t].PostInc? then 1 else 0;
            s'.value + TryWeight(s'.pc[a.t]) <= s.value + TryWeight(s.pc[a.t]) + inc
  {}

  /** The counter with the pending try-waits undone falls, except for the increment of a post. */
  lemma TriesFollow(s: State, a: Action)
    requires Enabled(s, a)
    ensures var s' := Apply(s, a);
            s'.value + Tries(s') <= s.value + Tries(s) + if a.Step? && s.pc[a.t].PostInc? then 1 else 0
  {
    TryLedger(s, a);
    SumFollows(TryWeight, s, a);
  }

  ghost predicate DebtOk(s: State) {
    s.value < 0 ==> s.value + Tries(s) >= 0 || exists t :: 0 <= t < |s.pc| && InWait(s.pc[t])
  }

  lemma KeepsDebt(s: State, a: Action)
    requires DebtOk(s) && Enabled(s, a)
    ensures DebtOk(Apply(s, a))
  {
    var s' := Apply(s, a);
    SumFollows(TryWeight, s, a);
    if s'.value < 0 && s'.value + Tries(s') < 0 && !InWait(s'.pc[a.t]) {
      if s.value < 0 && s.value + Tries(s) < 0 {
        var t :| 0 <= t < |s.pc| && InWait(s.pc[t]);
        PcFrame(s, a, t);
        assert InWait(s'.pc[t]);
      }
    }
  }

  lemma {:induction false} RunKeepsDebt(s: State, acts: seq<Action>)
    requires DebtOk(s) && Executable(s, acts)
    ensures DebtOk(Exec(s, acts))
    decreases |acts|
  {
    if acts != [] {
      KeepsDebt(s, acts[0]);
      RunKeepsDebt(Apply(s, acts[0]), acts[1..]);
    }
  }

  /** Every call has returned or is parked on the list, and the list holds nobody else. */
  ghost predicate AtRest(s: State) {
    && s.spin.None? && Distinct(s.waiters)
    && (forall t :: 0 <= t < |s.pc| ==> s.pc[t].Idle? || s.pc[t].Parked?)
    && (forall t: Task :: t in s.waiters <==> t < |s.pc| && s.pc[t].Parked?)
  }

  /**
   In every reachable state in which each task is idle or parked, the parked tasks are those
   on the list, and a negative counter means that there are some.
   */
  lemma {:induction false} RestingDebtHasWaiters(n: nat, count: nat, acts: seq<Action>)
    requires Executable(Init(n, count), acts)
    requires var s := Exec(Init(n, count), acts); forall t :: 0 <= t < |s.pc| ==> s.pc[t].Idle? || s.pc[t].Parked?
    ensures var s := Exec(Init(n, count), acts);
            AtRest(s) && (s.value < 0 ==> s.waiters != [])
  {
    SumZero(TryWeight, Init(n, count).pc);
    RunKeepsList(Init(n, count), acts);
    RunKeepsDebt(Init(n, count), acts);
    RestingIsAtRest(Exec(Init(n, count), acts));
    DebtAtRest(Exec(Init(n, count), acts));
  }

  lemma RestingIsAtRest(s: State)
    requires ListInv(s) && forall t :: 0 <= t < |s.pc| ==> s.pc[t].Idle? || s.pc[t].Parked?
    ensures AtRest(s)
  {
    if s.spin.Some? { SpinHolder(s); }
    forall t: Task ensures t in s.waiters <==> t < |s.pc| && s.pc[t].Parked? { NobodyInHand(s, t); }
  }

  lemma NobodyInHand(s: State, t: Task)
    requires forall x :: 0 <= x < |s.pc| ==> s.pc[x].Idle? || s.pc[x].Parked?
    ensures forall u :: !InHandOf(s, t, u)
  {
    forall u: Task ensures !InHandOf(s, t, u) {
      if u < |s.pc| { assert s.pc[u].Idle? || s.pc[u].Parked?; }
    }
  }

  lemma DebtAtRest(s: State)
    requires AtRest(s) && DebtOk(s)
    ensures s.value < 0 ==> s.waiters != []
  {
    SumZero(TryWeight, s.pc);
    if s.value < 0 {
      var t: Task :| t < |s.pc| && InWait(s.pc[t]);
      assert t in s.waiters;
    }
  }

  lemma SpinHolder(s: State)
    requires SpinOk(s) && s.spin.Some?
    ensures exists t :: 0 <= t < |s.pc| && HoldsSpin(s.pc[t])
  {
    assert HoldsSpin(s.pc[s.spin.value]);
  }
}
