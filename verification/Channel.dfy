/**
 The buffered channel of chan.c over the condition variables of co_cond.c.

 The mutex makes each critical section one step: from taking the mutex to the next unlock,
 or to the unlock inside co_cond_wait.  A task that has been signalled contends for the
 mutex again and re-tests its condition.
 */
module Channel {
  import opened Common

  type Task = nat

  datatype Pc<M> =
    | Idle
    | Sending(msg: M)        // chan_buffer_send: about to take the mutex for the first time
    | SendParked(msg: M)     //   in co_cond_wait on not_full
    | SendWoken(msg: M)      //   signalled, about to re-take the mutex
    | Receiving              // chan_buffer_recv, likewise on not_empty
    | RecvParked
    | RecvWoken

  /** `sent` and `received` are history: the messages pushed and popped, in order. */
  datatype State<M> = State(
    capacity: nat, queue: seq<M>, notFull: seq<Task>, notEmpty: seq<Task>, pc: seq<Pc<M>>,
    sent: seq<M>, received: seq<M>)

  datatype Action<M> = Send(t: Task, m: M) | Recv(t: Task) | Step(t: Task)

  function Init<M>(n: nat, capacity: nat): State<M> {
    State(capacity, [], [], [], seq(n, _ => Idle), [], [])
  }

  /** chan_msgs_full */
  predicate Full<M>(s: State<M>) {
    |s.queue| == s.capacity || (s.capacity == 0 && |s.queue| == 1)
  }

  /** co_cond_signal: unlink the oldest waiter and resume it. */
  function SignalNotEmpty<M>(s: State<M>): State<M> {
    if s.notEmpty == [] then s
    else
      var u := s.notEmpty[0];
      s.(notEmpty := s.notEmpty[1..], pc := if u < |s.pc| then s.pc[u := RecvWoken] else s.pc)
  }

  function SignalNotFull<M>(s: State<M>): State<M> {
    if s.notFull == [] then s
    else
      var u := s.notFull[0];
      s.(notFull := s.notFull[1..],
         pc := if u < |s.pc| && s.pc[u].SendParked? then s.pc[u := SendWoken(s.pc[u].msg)] else s.pc)
  }

  predicate Enabled<M>(s: State<M>, a: Action<M>) {
    a.t < |s.pc| &&
    if a.Step? then s.pc[a.t].Sending? || s.pc[a.t].SendWoken? || s.pc[a.t].Receiving? || s.pc[a.t].RecvWoken?
    else s.pc[a.t].Idle?
  }

  /** One critical section of chan_buffer_send. */
  function SendSection<M>(s: State<M>, t: Task, m: M): State<M>
    requires t < |s.pc|
  {
    if Full(s) then s.(notFull := s.notFull + [t], pc := s.pc[t := SendParked(m)])
    else SignalNotEmpty(s.(queue := s.queue + [m], sent := s.sent + [m], pc := s.pc[t := Idle]))
  }

  /** One critical section of chan_buffer_recv. */
  function RecvSection<M>(s: State<M>, t: Task): State<M>
    requires t < |s.pc|
  {
    if s.queue == [] then s.(notEmpty := s.notEmpty + [t], pc := s.pc[t := RecvParked])
    else SignalNotFull(s.(queue := s.queue[1..], received := s.received + [s.queue[0]], pc := s.pc[t := Idle]))
  }

  function Apply<M>(s: State<M>, a: Action<M>): State<M>
    requires Enabled(s, a)
  {
    match a
    case Send(t, m) => s.(pc := s.pc[t := Sending(m)])
    case Recv(t) => s.(pc := s.pc[t := Receiving])
    case Step(t) =>
      if s.pc[t].Sending? || s.pc[t].SendWoken? then SendSection(s, t, s.pc[t].msg)
      else RecvSection(s, t)
  }

  /** No task can move. */
  ghost predicate Still<M>(s: State<M>) {
    forall t :: !Enabled(s, Step(t))
  }

  predicate Executable<M>(s: State<M>, acts: seq<Action<M>>)
    decreases |acts|
  {
    acts == [] || (Enabled(s, acts[0]) && Executable(Apply(s, acts[0]), acts[1..]))
  }

  function Exec<M>(s: State<M>, acts: seq<Action<M>>): State<M>
    requires Executable(s, acts)
    decreases |acts|
  {
    if acts == [] then s else Exec(Apply(s, acts[0]), acts[1..])
  }

  // ---- invariant

  function WokenSender<M>(p: Pc<M>): nat { if p.SendWoken? then 1 else 0 }
  function WokenReceiver<M>(p: Pc<M>): nat { if p.RecvWoken? then 1 else 0 }

  /** Nothing lost, nothing invented, nothing overtaken. */
  ghost predicate Conserved<M>(s: State<M>) {
    s.received + s.queue == s.sent && |s.queue| <= s.capacity
  }

  ghost predicate ListsOk<M>(s: State<M>) {
    && Distinct(s.notFull) && Distinct(s.notEmpty)
    && (forall t: Task :: t in s.notFull <==> t < |s.pc| && s.pc[t].SendParked?)
    && (forall t: Task :: t in s.notEmpty <==> t < |s.pc| && s.pc[t].RecvParked?)
  }

  /** While receivers are parked every queued message has a woken receiver coming for it; dually for senders. */
  ghost predicate Claimed<M>(s: State<M>) {
    && (s.notEmpty != [] ==> |s.queue| <= Sum(WokenReceiver, s.pc))
    && (s.notFull != [] ==> s.capacity - |s.queue| <= Sum(WokenSender, s.pc))
  }

  ghost predicate Inv<M>(s: State<M>) {
    s.capacity > 0 && Conserved(s) && ListsOk(s) && Claimed(s)
  }

  lemma KeepsConserved<M>(s: State<M>, a: Action<M>)
    requires s.capacity > 0 && Conserved(s) && Enabled(s, a)
    ensures Conserved(Apply(s, a)) && Apply(s, a).capacity == s.capacity && |Apply(s, a).pc| == |s.pc|
  {
    if a.Step? && s.queue != [] {
      assert s.received + s.queue == s.received + [s.queue[0]] + s.queue[1..];
    }
  }

  lemma MoveKeepsLists<M>(s: State<M>, t: Task, p: Pc<M>)
    requires ListsOk(s) && t < |s.pc| && !s.pc[t].SendParked? && !s.pc[t].RecvParked?
    requires !p.SendParked? && !p.RecvParked?
    ensures ListsOk(s.(pc := s.pc[t := p]))
  {}

  lemma ParkKeepsLists<M>(s: State<M>, t: Task, p: Pc<M>)
    requires ListsOk(s) && t < |s.pc| && !s.pc[t].SendParked? && !s.pc[t].RecvParked?
    ensures p.SendParked? ==> ListsOk(s.(notFull := s.notFull + [t], pc := s.pc[t := p]))
    ensures ListsOk(s.(notEmpty := s.notEmpty + [t], pc := s.pc[t := RecvParked]))
  {
    assert t !in s.notFull && t !in s.notEmpty;
    DistinctSnoc(s.notFull, t);
    DistinctSnoc(s.notEmpty, t);
  }

  lemma SignalKeepsLists<M>(s: State<M>)
    requires ListsOk(s)
    ensures ListsOk(SignalNotFull(s)) && ListsOk(SignalNotEmpty(s))
  {
    if s.notFull != [] { DistinctTail(s.notFull); }
    if s.notEmpty != [] { DistinctTail(s.notEmpty); }
  }

  lemma KeepsLists<M>(s: State<M>, a: Action<M>)
    requires ListsOk(s) && Enabled(s, a)
    ensures ListsOk(Apply(s, a))
  {
    if a.Step? {
      var p := s.pc[a.t];
      MoveKeepsLists(s, a.t, Idle);
      if p.Sending? || p.SendWoken? {
        ParkKeepsLists(s, a.t, SendParked(p.msg));
        SignalKeepsLists(s.(queue := s.queue + [p.msg], sent := s.sent + [p.msg], pc := s.pc[a.t := Idle]));
      } else if s.queue == [] {
        ParkKeepsLists(s, a.t, RecvParked);
      } else {
        SignalKeepsLists(s.(queue := s.queue[1..], received := s.received + [s.queue[0]], pc := s.pc[a.t := Idle]));
      }
    } else {
      MoveKeepsLists(s, a.t, Apply(s, a).pc[a.t]);
    }
  }

  /** Signalling moves one task from parked to woken, if any is parked. */
  lemma SignalCounts<M>(s: State<M>)
    requires ListsOk(s)
    ensures Sum(WokenReceiver, SignalNotEmpty(s).pc) == Sum(WokenReceiver, s.pc) + if s.notEmpty == [] then 0 else 1
    ensures Sum(WokenSender, SignalNotEmpty(s).pc) == Sum(WokenSender, s.pc)
    ensures Sum(WokenSender, SignalNotFull(s).pc) == Sum(WokenSender, s.pc) + if s.notFull == [] then 0 else 1
    ensures Sum(WokenReceiver, SignalNotFull(s).pc) == Sum(WokenReceiver, s.pc)
  {
    if s.notEmpty != [] {
      var u := s.notEmpty[0];
      assert u in s.notEmpty;
      SumUpdate(WokenReceiver, s.pc, u, RecvWoken);
      SumUpdate(WokenSender, s.pc, u, RecvWoken);
    }
    if s.notFull != [] {
      var u := s.notFull[0];
      assert u in s.notFull;
      SumUpdate(WokenReceiver, s.pc, u, SendWoken(s.pc[u].msg));
      SumUpdate(WokenSender, s.pc, u, SendWoken(s.pc[u].msg));
    }
  }

  lemma MoveCounts<M>(pc: seq<Pc<M>>, t: Task, p: Pc<M>)
    requires t < |pc|
    ensures Sum(WokenReceiver, pc[t := p]) == Sum(WokenReceiver, pc) - WokenReceiver(pc[t]) + WokenReceiver(p)
    ensures Sum(WokenSender, pc[t := p]) == Sum(WokenSender, pc) - WokenSender(pc[t]) + WokenSender(p)
  {
    SumUpdate(WokenReceiver, pc, t, p);
    SumUpdate(WokenSender, pc, t, p);
  }

  lemma SendKeepsClaimed<M>(s: State<M>, t: Task)
    requires Inv(s) && t < |s.pc| && (s.pc[t].Sending? || s.pc[t].SendWoken?)
    ensures Claimed(SendSection(s, t, s.pc[t].msg))
  {
    var m := s.pc[t].msg;
    if Full(s) {
      MoveCounts(s.pc, t, SendParked(m));
    } else {
      MoveCounts(s.pc, t, Idle);
      MoveKeepsLists(s, t, Idle);
      SignalCounts(s.(queue := s.queue + [m], sent := s.sent + [m], pc := s.pc[t := Idle]));
    }
  }

  lemma RecvKeepsClaimed<M>(s: State<M>, t: Task)
    requires Inv(s) && t < |s.pc| && (s.pc[t].Receiving? || s.pc[t].RecvWoken?)
    ensures Claimed(RecvSection(s, t))
  {
    if s.queue == [] {
      MoveCounts(s.pc, t, RecvParked);
    } else {
      MoveCounts(s.pc, t, Idle);
      MoveKeepsLists(s, t, Idle);
      SignalCounts(s.(queue := s.queue[1..], received := s.received + [s.queue[0]], pc := s.pc[t := Idle]));
    }
  }

  lemma KeepsClaimed<M>(s: State<M>, a: Action<M>)
    requires Inv(s) && Enabled(s, a)
    ensures Claimed(Apply(s, a))
  {
    if a.Step? {
      if s.pc[a.t].Sending? || s.pc[a.t].SendWoken? { SendKeepsClaimed(s, a.t); } else { RecvKeepsClaimed(s, a.t); }
    } else {
      MoveCounts(s.pc, a.t, Apply(s, a).pc[a.t]);
    }
  }

  lemma {:induction false} RunKeepsInv<M>(s: State<M>, acts: seq<Action<M>>)
    requires Inv(s) && Executable(s, acts)
    ensures var s' := Exec(s, acts);
            Inv(s') && s'.capacity == s.capacity && |s'.pc| == |s.pc|
    decreases |acts|
  {
    if acts != [] {
      KeepsConserved(s, acts[0]);
      KeepsLists(s, acts[0]);
      KeepsClaimed(s, acts[0]);
      RunKeepsInv(Apply(s, acts[0]), acts[1..]);
    }
  }

  // ---- main results

  /** Order and conservation: what was received, then what is queued, is what was sent. */
  lemma {:induction false} DeliversInOrder<M>(n: nat, capacity: nat, acts: seq<Action<M>>)
    requires capacity > 0 && Executable(Init(n, capacity), acts)
    ensures var s := Exec(Init(n, capacity), acts);
            s.received + s.queue == s.sent && |s.queue| <= capacity
  {
    RunKeepsInv(Init<M>(n, capacity), acts);
  }

  predicate AtRest<M>(p: Pc<M>) { p.Idle? || p.SendParked? || p.RecvParked? }

  /** In every reachable state, parked tasks on both sides mean a woken task in flight. */
  lemma {:induction false} NeverBothStuck<M>(n: nat, capacity: nat, acts: seq<Action<M>>)
    requires capacity > 0 && Executable(Init(n, capacity), acts)
    ensures var s := Exec(Init(n, capacity), acts);
            && (s.notEmpty != [] ==> |s.queue| <= Sum(WokenReceiver, s.pc))
            && (s.notFull != [] ==> capacity - |s.queue| <= Sum(WokenSender, s.pc))
            && (s.notEmpty != [] && s.notFull != [] ==>
                  exists t :: 0 <= t < |s.pc| && (s.pc[t].SendWoken? || s.pc[t].RecvWoken?))
  {
    RunKeepsInv(Init<M>(n, capacity), acts);
    var s := Exec(Init(n, capacity), acts);
    if s.notEmpty != [] && s.notFull != [] {
      if Sum(WokenReceiver, s.pc) > 0 {
        var t := SumPositive(WokenReceiver, s.pc);
      } else {
        var t := SumPositive(WokenSender, s.pc);
      }
    }
  }

  /** How many more critical sections a call can need. */
  function Weight<M>(p: Pc<M>): nat {
    if p.Idle? then 0 else if p.SendParked? || p.RecvParked? then 1 else 2
  }

  lemma StepLowersRank<M>(s: State<M>, t: Task)
    requires Inv(s) && Enabled(s, Step(t))
    ensures Sum(Weight, Apply(s, Step(t)).pc) < Sum(Weight, s.pc)
  {
    assert t !in s.notFull && t !in s.notEmpty;
    var sending := s.pc[t].Sending? || s.pc[t].SendWoken?;
    if sending && Full(s) {
      SumUpdate(Weight, s.pc, t, SendParked(s.pc[t].msg));
    } else if !sending && s.queue == [] {
      SumUpdate(Weight, s.pc, t, RecvParked);
    } else {
      SumUpdate(Weight, s.pc, t, Idle);
      var q := if sending then s.notEmpty else s.notFull;
      if q != [] {
        assert q[0] in q;
        SumUpdate(Weight, s.pc[t := Idle], q[0], Apply(s, Step(t)).pc[q[0]]);
      }
    }
  }

  lemma {:induction false} StepsEnd<M>(s: State<M>, acts: seq<Action<M>>)
    requires Inv(s) && Executable(s, acts) && forall i :: 0 <= i < |acts| ==> acts[i].Step?
    ensures |acts| <= Sum(Weight, s.pc)
    decreases |acts|
  {
    if acts != [] {
      StepLowersRank(s, acts[0].t);
      KeepsConserved(s, acts[0]);
      KeepsLists(s, acts[0]);
      KeepsClaimed(s, acts[0]);
      StepsEnd(Apply(s, acts[0]), acts[1..]);
    }
  }

  lemma {:induction false} RestIsUnstuck<M>(s: State<M>)
    requires Inv(s) && Still(s)
    ensures forall t :: 0 <= t < |s.pc| ==> AtRest(s.pc[t])
    ensures s.notEmpty != [] ==> s.queue == [] && s.notFull == []
    ensures s.notFull != [] ==> Full(s) && s.notEmpty == []
  {
    forall t | 0 <= t < |s.pc| ensures AtRest(s.pc[t]) { assert !Enabled(s, Step(t)); }
    SumZero(WokenReceiver, s.pc);
    SumZero(WokenSender, s.pc);
  }

  /**
   No run gets stuck.  Whatever calls are in progress come to rest within two critical
   sections per task, and once no task can move, the tasks left parked are receivers in
   front of an empty queue or senders in front of a full one, never both.
   */
  lemma {:induction false} ComesToRestUnstuck<M>(n: nat, capacity: nat, past: seq<Action<M>>, acts: seq<Action<M>>)
    requires capacity > 0 && Executable(Init(n, capacity), past)
    requires Executable(Exec(Init(n, capacity), past), acts)
    requires forall i :: 0 <= i < |acts| ==> acts[i].Step?
    ensures |acts| <= 2 * n
    ensures var s := Exec(Exec(Init(n, capacity), past), acts);
            Still(s) ==>
              && (forall t :: 0 <= t < |s.pc| ==> AtRest(s.pc[t]))
              && (s.notEmpty != [] ==> s.queue == [] && s.notFull == [])
              && (s.notFull != [] ==> Full(s) && s.notEmpty == [])
  {
    RunKeepsInv(Init<M>(n, capacity), past);
    var s := Exec(Init(n, capacity), past);
    StepsEnd(s, acts);
    SumBound(Weight, s.pc, 2);
    RunKeepsInv(s, acts);
    var s' := Exec(s, acts);
    if Still(s') { RestIsUnstuck(s'); }
  }
}
