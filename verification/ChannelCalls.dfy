/**
 The send and receive calls on a buffered channel, from their start to their return.  What a
 call sends is read off the action that starts it, so that nothing here rests on the history
 kept in the state.
 */
module ChannelCalls {
  import opened Common
  import opened Channel

  /** The message of the last send of each task, while that was its last call. */
  type Calls<M> = map<Task, M>

  function Started<M>(calls: Calls<M>, a: Action<M>): Calls<M> {
    match a
    case Send(t, m) => calls[t := m]
    case Recv(t) => calls - {t}
    case Step(_) => calls
  }

  predicate Returning<M>(s: State<M>, a: Action<M>)
    requires Enabled(s, a)
  {
    a.Step? && a.t < |Apply(s, a).pc| && Apply(s, a).pc[a.t].Idle?
  }

  /** The messages of the sends that have returned, in the order of their returns. */
  ghost function SendsReturned<M>(calls: Calls<M>, s: State<M>, acts: seq<Action<M>>): seq<M>
    requires Executable(s, acts)
    decreases |acts|
  {
    if acts == [] then []
    else SendReturned(calls, s, acts[0]) + SendsReturned(Started(calls, acts[0]), Apply(s, acts[0]), acts[1..])
  }

  ghost function SendReturned<M>(calls: Calls<M>, s: State<M>, a: Action<M>): seq<M>
    requires Enabled(s, a)
  {
    if Returning(s, a) && a.t in calls then [calls[a.t]] else []
  }

  /** The receives that have returned, each with the head of the queue it found, in order. */
  ghost function RecvsReturned<M>(calls: Calls<M>, s: State<M>, acts: seq<Action<M>>): seq<Option<M>>
    requires Executable(s, acts)
    decreases |acts|
  {
    if acts == [] then []
    else RecvReturned(calls, s, acts[0]) + RecvsReturned(Started(calls, acts[0]), Apply(s, acts[0]), acts[1..])
  }

  ghost function RecvReturned<M>(calls: Calls<M>, s: State<M>, a: Action<M>): seq<Option<M>>
    requires Enabled(s, a)
  {
    if !Returning(s, a) || a.t in calls then [] else [if s.queue == [] then None else Some(s.queue[0])]
  }

  // ---- a task in a send carries the message of its call

  predicate InSend<M>(p: Pc<M>) { p.Sending? || p.SendParked? || p.SendWoken? }

  predicate InRecv<M>(p: Pc<M>) { p.Receiving? || p.RecvParked? || p.RecvWoken? }

  ghost predicate Carries<M>(calls: Calls<M>, s: State<M>, t: Task)
    requires t < |s.pc|
  {
    && (InSend(s.pc[t]) ==> t in calls && calls[t] == s.pc[t].msg)
    && (InRecv(s.pc[t]) ==> t !in calls)
  }

  ghost predicate AllCarry<M>(calls: Calls<M>, s: State<M>) {
    forall t :: 0 <= t < |s.pc| ==> Carries(calls, s, t)
  }

  /** An action moves its own task; another task is at most woken. */
  lemma Frame<M>(s: State<M>, a: Action<M>, x: Task)
    requires ListsOk(s) && Enabled(s, a) && x < |s.pc| && x != a.t
    ensures |Apply(s, a).pc| == |s.pc|
    ensures var p, p' := s.pc[x], Apply(s, a).pc[x];
            || p' == p
            || (p.RecvParked? && p'.RecvWoken?)
            || (p.SendParked? && p'.SendWoken? && p'.msg == p.msg)
  {
    if s.notEmpty != [] { assert s.notEmpty[0] in s.notEmpty; }
  }

  /** One critical section of a send pushes its message and returns, or parks with nothing done. */
  lemma SendOutcome<M>(s: State<M>, t: Task)
    requires ListsOk(s) && Enabled(s, Step(t)) && InSend(s.pc[t])
    ensures var s' := Apply(s, Step(t));
            && |s'.pc| == |s.pc| && s'.received == s.received && (s'.pc[t].Idle? <==> !Full(s))
            && if s'.pc[t].Idle? then s'.sent == s.sent + [s.pc[t].msg]
               else s'.sent == s.sent && s'.pc[t] == SendParked(s.pc[t].msg)
  {
    assert t !in s.notEmpty;
    if s.notEmpty != [] { assert s.notEmpty[0] in s.notEmpty; }
  }

  /** One critical section of a receive pops the head of the queue and returns, or parks with nothing done. */
  lemma RecvOutcome<M>(s: State<M>, t: Task)
    requires ListsOk(s) && Enabled(s, Step(t)) && InRecv(s.pc[t])
    ensures var s' := Apply(s, Step(t));
            && |s'.pc| == |s.pc| && s'.sent == s.sent && (s'.pc[t].Idle? <==> s.queue != [])
            && if s'.pc[t].Idle? then s.queue != [] && s'.received == s.received + [s.queue[0]]
               else s'.received == s.received && s'.pc[t].RecvParked?
  {
    assert t !in s.notFull;
    if s.notFull != [] { assert s.notFull[0] in s.notFull; }
  }

  lemma KeepsCarry<M>(calls: Calls<M>, s: State<M>, a: Action<M>)
    requires ListsOk(s) && AllCarry(calls, s) && Enabled(s, a)
    ensures AllCarry(Started(calls, a), Apply(s, a))
  {
    var s', calls' := Apply(s, a), Started(calls, a);
    assert Carries(calls, s, a.t);
    MoverCarries(calls, s, a);
    forall x | 0 <= x < |s'.pc| ensures Carries(calls', s', x) {
      if x != a.t {
        Frame(s, a, x);
        assert Carries(calls, s, x);
      }
    }
  }

  lemma MoverCarries<M>(calls: Calls<M>, s: State<M>, a: Action<M>)
    requires ListsOk(s) && Enabled(s, a) && Carries(calls, s, a.t)
    ensures |Apply(s, a).pc| == |s.pc| && Carries(Started(calls, a), Apply(s, a), a.t)
    ensures Apply(s, a).sent == s.sent + SendReturned(calls, s, a)
    ensures Somes(Apply(s, a).received) == Somes(s.received) + RecvReturned(calls, s, a)
  {
    if a.Step? {
      if InSend(s.pc[a.t]) { SendOutcome(s, a.t); } else { RecvOutcome(s, a.t); }
    }
  }

  lemma {:induction false} ReturnedFrom<M>(calls: Calls<M>, s: State<M>, acts: seq<Action<M>>)
    requires ListsOk(s) && AllCarry(calls, s) && Executable(s, acts)
    ensures Exec(s, acts).sent == s.sent + SendsReturned(calls, s, acts)
    ensures Somes(Exec(s, acts).received) == Somes(s.received) + RecvsReturned(calls, s, acts)
    decreases |acts|
  {
    if acts != [] {
      var a, s', calls' := acts[0], Apply(s, acts[0]), Started(calls, acts[0]);
      assert Carries(calls, s, a.t);
      KeepsLists(s, a);
      KeepsCarry(calls, s, a);
      MoverCarries(calls, s, a);
      ReturnedFrom(calls', s', acts[1..]);
      AppendAssociates(s.sent, SendReturned(calls, s, a), SendsReturned(calls', s', acts[1..]));
      AppendAssociates(Somes(s.received), RecvReturned(calls, s, a), RecvsReturned(calls', s', acts[1..]));
    }
  }

  // ---- every call is still inside, or has moved one message

  function SendWeight<M>(p: Pc<M>): nat { if InSend(p) then 1 else 0 }
  function RecvWeight<M>(p: Pc<M>): nat { if InRecv(p) then 1 else 0 }

  function SendCalls<M>(acts: seq<Action<M>>): nat {
    if acts == [] then 0 else (if acts[0].Send? then 1 else 0) + SendCalls(acts[1..])
  }

  function RecvCalls<M>(acts: seq<Action<M>>): nat {
    if acts == [] then 0 else (if acts[0].Recv? then 1 else 0) + RecvCalls(acts[1..])
  }

  /** The task an action wakes: the oldest of the other side's list, if the action moves a message. */
  function Woken<M>(s: State<M>, a: Action<M>): Option<Task>
    requires Enabled(s, a)
  {
    if !a.Step? then None
    else if InSend(s.pc[a.t]) then if Full(s) || s.notEmpty == [] then None else Some(s.notEmpty[0])
    else if s.queue == [] || s.notFull == [] then None else Some(s.notFull[0])
  }

  /** The program counters after an action: its own task moved, and possibly one woken. */
  lemma Shape<M>(s: State<M>, a: Action<M>)
    requires ListsOk(s) && Enabled(s, a)
    ensures var pc, pc', u := s.pc, Apply(s, a).pc, Woken(s, a);
            && |pc'| == |pc|
            && (u.None? ==> pc' == pc[a.t := pc'[a.t]])
            && (u.Some? ==>
                  && u.value < |pc| && u.value != a.t && pc' == pc[a.t := pc'[a.t]][u.value := pc'[u.value]]
                  && InSend(pc'[u.value]) == InSend(pc[u.value]) && InRecv(pc'[u.value]) == InRecv(pc[u.value]))
  {
    assert a.t !in s.notEmpty && a.t !in s.notFull;
    if s.notEmpty != [] { assert s.notEmpty[0] in s.notEmpty; }
    if s.notFull != [] { assert s.notFull[0] in s.notFull; }
  }

  lemma WeightsFollow<M>(s: State<M>, a: Action<M>)
    requires ListsOk(s) && Enabled(s, a)
    ensures var pc, pc' := s.pc, Apply(s, a).pc;
            && |pc'| == |pc|
            && Sum(SendWeight, pc') == Sum(SendWeight, pc) - SendWeight(pc[a.t]) + SendWeight(pc'[a.t])
            && Sum(RecvWeight, pc') == Sum(RecvWeight, pc) - RecvWeight(pc[a.t]) + RecvWeight(pc'[a.t])
  {
    var pc, pc', u := s.pc, Apply(s, a).pc, Woken(s, a);
    Shape(s, a);
    SumUpdate(SendWeight, pc, a.t, pc'[a.t]);
    SumUpdate(RecvWeight, pc, a.t, pc'[a.t]);
    if u.Some? {
      SumUpdate(SendWeight, pc[a.t := pc'[a.t]], u.value, pc'[u.value]);
      SumUpdate(RecvWeight, pc[a.t := pc'[a.t]], u.value, pc'[u.value]);
    }
  }

  lemma CallsBalance<M>(s: State<M>, a: Action<M>)
    requires ListsOk(s) && Enabled(s, a)
    ensures var s' := Apply(s, a);
            && |s'.sent| + Sum(SendWeight, s'.pc) == |s.sent| + Sum(SendWeight, s.pc) + (if a.Send? then 1 else 0)
            && |s'.received| + Sum(RecvWeight, s'.pc) ==
               |s.received| + Sum(RecvWeight, s.pc) + (if a.Recv? then 1 else 0)
  {
    WeightsFollow(s, a);
    if a.Step? {
      if InSend(s.pc[a.t]) { SendOutcome(s, a.t); } else { RecvOutcome(s, a.t); }
    }
  }

  lemma {:induction false} CallsBalanceFrom<M>(s: State<M>, acts: seq<Action<M>>)
    requires ListsOk(s) && Executable(s, acts)
    ensures var s' := Exec(s, acts);
            && |s'.sent| + Sum(SendWeight, s'.pc) == |s.sent| + Sum(SendWeight, s.pc) + SendCalls(acts)
            && |s'.received| + Sum(RecvWeight, s'.pc) == |s.received| + Sum(RecvWeight, s.pc) + RecvCalls(acts)
    decreases |acts|
  {
    if acts != [] {
      KeepsLists(s, acts[0]);
      CallsBalance(s, acts[0]);
      CallsBalanceFrom(Apply(s, acts[0]), acts[1..]);
    }
  }

  // ---- main results

  /**
   The messages of the sends that have returned, in the order of their returns, are what was
   sent; the i-th receive to return found, and took, the i-th message received; and every call
   made is among these or still in progress.
   */
  lemma {:induction false} CallsAreHistory<M>(n: nat, capacity: nat, acts: seq<Action<M>>)
    requires capacity > 0 && Executable(Init(n, capacity), acts)
    ensures var s0 := Init<M>(n, capacity); var s := Exec(s0, acts);
            && s.sent == SendsReturned(map[], s0, acts)
            && Somes(s.received) == RecvsReturned(map[], s0, acts)
            && SendCalls(acts) == |s.sent| + Sum(SendWeight, s.pc)
            && RecvCalls(acts) == |s.received| + Sum(RecvWeight, s.pc)
  {
    var s0 := Init<M>(n, capacity);
    ReturnedFrom(map[], s0, acts);
    assert s0.sent + SendsReturned(map[], s0, acts) == SendsReturned(map[], s0, acts);
    assert Somes(s0.received) + RecvsReturned(map[], s0, acts) == RecvsReturned(map[], s0, acts);
    CallsBalanceFrom(s0, acts);
    SumZero(SendWeight, s0.pc);
    SumZero(RecvWeight, s0.pc);
  }

  /**
   Once no task can move, either every receive has returned with a message, or the queue is
   empty and every send has returned; likewise the sends, or the queue is full.
   */
  lemma {:induction false} RestMeansServed<M>(n: nat, capacity: nat, acts: seq<Action<M>>)
    requires capacity > 0 && Executable(Init(n, capacity), acts)
    requires Still(Exec(Init(n, capacity), acts))
    ensures var s := Exec(Init<M>(n, capacity), acts);
            && (RecvCalls(acts) == |s.received| || (s.queue == [] && SendCalls(acts) == |s.sent|))
            && (SendCalls(acts) == |s.sent| || (Full(s) && RecvCalls(acts) == |s.received|))
  {
    var s := Exec(Init<M>(n, capacity), acts);
    RunKeepsInv(Init<M>(n, capacity), acts);
    RestIsUnstuck(s);
    CallsAreHistory(n, capacity, acts);
    if s.notEmpty == [] { NobodyReceiving(s); }
    if s.notFull == [] { NobodySending(s); }
  }

  lemma {:induction false} NobodyReceiving<M>(s: State<M>)
    requires ListsOk(s) && s.notEmpty == [] && Still(s)
    ensures Sum(RecvWeight, s.pc) == 0
  {
    forall p | p in s.pc ensures RecvWeight(p) == 0 {
      var t: Task :| t < |s.pc| && s.pc[t] == p;
      assert !Enabled(s, Step(t)) && t !in s.notEmpty;
    }
    SumZero(RecvWeight, s.pc);
  }

  lemma {:induction false} NobodySending<M>(s: State<M>)
    requires ListsOk(s) && s.notFull == [] && Still(s)
    ensures Sum(SendWeight, s.pc) == 0
  {
    forall p | p in s.pc ensures SendWeight(p) == 0 {
      var t: Task :| t < |s.pc| && s.pc[t] == p;
      assert !Enabled(s, Step(t)) && t !in s.notFull;
    }
    SumZero(SendWeight, s.pc);
  }

  // ---- a call that need not wait

  lemma {:induction false} TwoActions<M>(s: State<M>, a: Action<M>, b: Action<M>)
    requires Enabled(s, a) && Enabled(Apply(s, a), b)
    ensures Executable(s, [a, b]) && Exec(s, [a, b]) == Apply(Apply(s, a), b)
  {
    assert [a, b][1..] == [b] && [b][1..] == [];
    assert Exec(Apply(s, a), [b]) == Exec(Apply(Apply(s, a), b), []);
  }

  /** In every reachable state with room, an idle task can send in one critical section. */
  lemma {:induction false} SendAtOnce<M>(n: nat, capacity: nat, acts: seq<Action<M>>, t: Task, m: M)
    requires capacity > 0 && Executable(Init(n, capacity), acts)
    requires var s := Exec(Init<M>(n, capacity), acts); t < |s.pc| && s.pc[t].Idle? && |s.queue| < capacity
    ensures var s, call := Exec(Init<M>(n, capacity), acts), [Send(t, m), Step(t)];
            && Executable(s, call) && Exec(s, call).queue == s.queue + [m]
            && t < |Exec(s, call).pc| && Exec(s, call).pc[t].Idle?
  {
    var s := Exec(Init<M>(n, capacity), acts);
    RunKeepsInv(Init<M>(n, capacity), acts);
    KeepsLists(s, Send(t, m));
    TwoActions(s, Send(t, m), Step(t));
    SendOutcome(Apply(s, Send(t, m)), t);
  }

  /** In every reachable state with a message queued, an idle task can receive it in one critical section. */
  lemma {:induction false} RecvAtOnce<M>(n: nat, capacity: nat, acts: seq<Action<M>>, t: Task)
    requires capacity > 0 && Executable(Init(n, capacity), acts)
    requires var s := Exec(Init<M>(n, capacity), acts); t < |s.pc| && s.pc[t].Idle? && s.queue != []
    ensures var s, call := Exec(Init<M>(n, capacity), acts), [Recv(t), Step(t)];
            && Executable(s, call) && s.queue == [s.queue[0]] + Exec(s, call).queue
            && Exec(s, call).received == s.received + [s.queue[0]]
            && t < |Exec(s, call).pc| && Exec(s, call).pc[t].Idle?
  {
    var s := Exec(Init<M>(n, capacity), acts);
    RunKeepsInv(Init<M>(n, capacity), acts);
    KeepsLists(s, Recv(t));
    TwoActions(s, Recv(t), Step(t));
    RecvOutcome(Apply(s, Recv(t)), t);
  }
}
