/**
 The unbuffered channel of chan.c (capacity zero): a sender pushes its message into the empty
 queue and then waits on not_full; a receiver pops it and signals not_full twice.  As in
 Channel, one step is one critical section.
 */
module Rendezvous {
  import opened Common

  type Task = nat

  datatype Pc<M> =
    | Idle
    | Sending(msg: M)                 // chan_nobuffer_send: about to take the mutex
    | Queued(msg: M)                  //   parked on not_full, message not pushed yet
    | Retrying(msg: M)                //   signalled, message not pushed yet
    | Handing(msg: M, k: nat)         //   parked on not_full, message pushed as the k-th
    | Returning(msg: M, k: nat)       //   signalled after pushing: leaves both loops and returns
    | Receiving                       // chan_nobuffer_recv: about to take the mutex
    | RecvParked                      //   parked on not_empty
    | RecvWoken                       //   signalled

  datatype State<M> = State(
    queue: seq<M>, notFull: seq<Task>, notEmpty: seq<Task>, pc: seq<Pc<M>>,
    sent: seq<M>, received: seq<M>)

  datatype Action<M> = Send(t: Task, m: M) | Recv(t: Task) | Step(t: Task)

  function Init<M>(n: nat): State<M> {
    State([], [], [], seq(n, _ => Idle), [], [])
  }

  function Wake<M>(p: Pc<M>): Pc<M> {
    match p
    case Queued(m) => Retrying(m)
    case Handing(m, k) => Returning(m, k)
    case RecvParked => RecvWoken
    case _ => p
  }

  /** co_cond_signal on each of the two lists. */
  function SignalNotFull<M>(s: State<M>): State<M> {
    if s.notFull == [] then s
    else
      var u := s.notFull[0];
      s.(notFull := s.notFull[1..], pc := if u < |s.pc| then s.pc[u := Wake(s.pc[u])] else s.pc)
  }

  function SignalNotEmpty<M>(s: State<M>): State<M> {
    if s.notEmpty == [] then s
    else
      var u := s.notEmpty[0];
      s.(notEmpty := s.notEmpty[1..], pc := if u < |s.pc| then s.pc[u := Wake(s.pc[u])] else s.pc)
  }

  predicate Enabled<M>(s: State<M>, a: Action<M>) {
    a.t < |s.pc| &&
    if a.Step? then !AtRest(s.pc[a.t]) else s.pc[a.t].Idle?
  }

  predicate AtRest<M>(p: Pc<M>) { p.Idle? || p.Queued? || p.Handing? || p.RecvParked? }

  /** The do-while of chan_nobuffer_send up to its next co_cond_wait. */
  function SendSection<M>(s: State<M>, t: Task, m: M): State<M>
    requires t < |s.pc|
  {
    if s.queue == [] then
      SignalNotEmpty(ParkNotFull(s, t, Handing(m, |s.sent|)).(queue := [m], sent := s.sent + [m]))
    else
      ParkNotFull(s, t, Queued(m))
  }

  /** The queueing half of co_cond_wait on not_full. */
  function ParkNotFull<M>(s: State<M>, t: Task, p: Pc<M>): State<M>
    requires t < |s.pc|
  {
    s.(notFull := s.notFull + [t], pc := s.pc[t := p])
  }

  function RecvSection<M>(s: State<M>, t: Task): State<M>
    requires t < |s.pc|
  {
    if s.queue == [] then s.(notEmpty := s.notEmpty + [t], pc := s.pc[t := RecvParked])
    else
      SignalNotFull(SignalNotFull(Popped(s, t)))
  }

  function Popped<M>(s: State<M>, t: Task): State<M>
    requires t < |s.pc| && s.queue != []
  {
    s.(queue := s.queue[1..], received := s.received + [s.queue[0]], pc := s.pc[t := Idle])
  }

  function Apply<M>(s: State<M>, a: Action<M>): State<M>
    requires Enabled(s, a)
  {
    match a
    case Send(t, m) => s.(pc := s.pc[t := Sending(m)])
    case Recv(t) => s.(pc := s.pc[t := Receiving])
    case Step(t) =>
      match s.pc[t]
      case Sending(m) => SendSection(s, t, m)
      case Retrying(m) => SendSection(s, t, m)
      case Returning(_, _) => s.(pc := s.pc[t := Idle])
      case _ => RecvSection(s, t)
  }

  /** No task can move. */
  ghost predicate Still<M>(s: State<M>) {
    forall t :: !Enabled(s, Step(t))
  }

  predicate Executable<M>(s: State<M>, acts: seq<Action<M>>)
    decreases |acts|
  {
    acts == [] || (Enabled(s, acts[0]) && Executable(Apply(s, acts[0]), acts[1..]))
  }

  function Exec<M>(s: State<M>, acts: seq<Action<M>>): State<M>
    requires Executable(s, acts)
    decreases |acts|
  {
    if acts == [] then s else Exec(Apply(s, acts[0]), acts[1..])
  }

  // ---- invariant

  predicate OnNotFull<M>(p: Pc<M>) { p.Queued? || p.Handing? }

  ghost predicate Conserved<M>(s: State<M>) {
    s.received + s.queue == s.sent && |s.queue| <= 1
  }

  ghost predicate ListsOk<M>(s: State<M>) {
    && Distinct(s.notFull) && Distinct(s.notEmpty)
    && (forall t: Task :: t in s.notFull <==> t < |s.pc| && OnNotFull(s.pc[t]))
    && (forall t: Task :: t in s.notEmpty <==> t < |s.pc| && s.pc[t].RecvParked?)
  }

  /** A pushed message is where its sender thinks it is; a signalled sender's has been popped. */
  ghost predicate HandedOver<M>(s: State<M>) {
    && (forall t :: 0 <= t < |s.pc| && s.pc[t].Handing? ==> s.pc[t].k < |s.sent| && s.sent[s.pc[t].k] == s.pc[t].msg)
    && (forall t :: 0 <= t < |s.pc| && s.pc[t].Returning? ==>
       s.pc[t].k < |s.received| && s.received[s.pc[t].k] == s.pc[t].msg)
  }

  function WokenReceiver<M>(p: Pc<M>): nat { if p.RecvWoken? then 1 else 0 }

  /** While receivers are parked, a queued message has a woken receiver coming for it. */
  ghost predicate Claimed<M>(s: State<M>) {
    s.notEmpty != [] ==> |s.queue| <= Sum(WokenReceiver, s.pc)
  }

  ghost predicate Inv<M>(s: State<M>) {
    Conserved(s) && ListsOk(s) && HandedOver(s) && Claimed(s)
  }

  lemma KeepsConserved<M>(s: State<M>, a: Action<M>)
    requires Conserved(s) && Enabled(s, a)
    ensures Conserved(Apply(s, a)) && |Apply(s, a).pc| == |s.pc|
  {
    if s.queue != [] {
      assert s.received + s.queue == s.received + [s.queue[0]] + s.queue[1..];
    }
  }

  lemma SignalKeepsLists<M>(s: State<M>)
    requires ListsOk(s)
    ensures ListsOk(SignalNotFull(s)) && ListsOk(SignalNotEmpty(s))
  {
    if s.notFull != [] { DistinctTail(s.notFull); }
    if s.notEmpty != [] { DistinctTail(s.notEmpty); }
  }

  lemma ParkKeepsLists<M>(s: State<M>, t: Task, p: Pc<M>)
    requires ListsOk(s) && t < |s.pc| && !AtRest(s.pc[t]) && OnNotFull(p)
    ensures ListsOk(ParkNotFull(s, t, p))
  {
    assert t !in s.notFull && t !in s.notEmpty;
    DistinctSnoc(s.notFull, t);
  }

  /** A running task that does not park changes no list. */
  lemma MoveKeepsLists<M>(s: State<M>, t: Task, p: Pc<M>)
    requires ListsOk(s) && t < |s.pc| && (s.pc[t].Idle? || !AtRest(s.pc[t]))
    requires !OnNotFull(p) && !p.RecvParked?
    ensures ListsOk(s.(pc := s.pc[t := p]))
  {
    assert t !in s.notFull && t !in s.notEmpty;
  }

  lemma KeepsLists<M>(s: State<M>, a: Action<M>)
    requires ListsOk(s) && Enabled(s, a)
    ensures ListsOk(Apply(s, a))
  {
    var t := a.t;
    if !a.Step? {
      MoveKeepsLists(s, t, Apply(s, a).pc[t]);
    } else if s.pc[t].Sending? || s.pc[t].Retrying? {
      var m := s.pc[t].msg;
      if s.queue == [] {
        ParkKeepsLists(s, t, Handing(m, |s.sent|));
        SignalKeepsLists(ParkNotFull(s, t, Handing(m, |s.sent|)).(queue := [m], sent := s.sent + [m]));
      } else {
        ParkKeepsLists(s, t, Queued(m));
      }
    } else if s.pc[t].Returning? {
      MoveKeepsLists(s, t, Idle);
    } else {
      RecvKeepsLists(s, t);
    }
  }

  lemma RecvKeepsLists<M>(s: State<M>, t: Task)
    requires ListsOk(s) && t < |s.pc| && !AtRest(s.pc[t])
    ensures ListsOk(RecvSection(s, t))
  {
    if s.queue == [] {
      assert t !in s.notFull && t !in s.notEmpty;
      DistinctSnoc(s.notEmpty, t);
    } else {
      MoveKeepsLists(s, t, Idle);
      var s1 := Popped(s, t);
      SignalKeepsLists(s1);
      SignalKeepsLists(SignalNotFull(s1));
    }
  }

  // ---- a pushed message and its sender

  lemma SignalNotEmptyMoves<M>(s: State<M>, x: Task)
    requires ListsOk(s) && x < |s.pc|
    ensures SignalNotEmpty(s).pc[x] == s.pc[x] || (s.pc[x].RecvParked? && SignalNotEmpty(s).pc[x].RecvWoken?)
  {
    if s.notEmpty != [] { assert s.notEmpty[0] in s.notEmpty; }
  }

  /** Everything pushed has been popped right after a pop, so any sender may be signalled. */
  lemma SignalKeepsHanded<M>(s: State<M>)
    requires HandedOver(s) && s.received == s.sent
    ensures HandedOver(SignalNotFull(s))
  {}

  lemma KeepsHanded<M>(s: State<M>, a: Action<M>)
    requires Inv(s) && Enabled(s, a)
    ensures HandedOver(Apply(s, a))
  {
    var t := a.t;
    var s' := Apply(s, a);
    if a.Step? && (s.pc[t].Sending? || s.pc[t].Retrying?) {
      PushKeepsHanded(s, t, s.pc[t].msg);
    } else if a.Step? && !s.pc[t].Returning? && s.queue != [] {
      var s1 := Popped(s, t);
      assert s1.received == s.received + s.queue;
      SignalKeepsHanded(s1);
      SignalKeepsHanded(SignalNotFull(s1));
    }
  }

  lemma PushKeepsHanded<M>(s: State<M>, t: Task, m: M)
    requires Inv(s) && t < |s.pc| && (s.pc[t].Sending? || s.pc[t].Retrying?)
    ensures HandedOver(SendSection(s, t, m))
  {
    if s.queue == [] {
      var s1 := ParkNotFull(s, t, Handing(m, |s.sent|)).(queue := [m], sent := s.sent + [m]);
      ParkKeepsLists(s, t, Handing(m, |s.sent|));
      forall x: Task | x < |s.pc|
        ensures SignalNotEmpty(s1).pc[x] == s1.pc[x] || SignalNotEmpty(s1).pc[x].RecvWoken?
      {
        SignalNotEmptyMoves(s1, x);
      }
    }
  }

  // ---- receivers and queued messages

  lemma SignalNotEmptyCounts<M>(s: State<M>)
    requires ListsOk(s)
    ensures Sum(WokenReceiver, SignalNotEmpty(s).pc) == Sum(WokenReceiver, s.pc) + if s.notEmpty == [] then 0 else 1
  {
    if s.notEmpty != [] {
      var u := s.notEmpty[0];
      assert u in s.notEmpty;
      SumUpdate(WokenReceiver, s.pc, u, RecvWoken);
    }
  }

  lemma SignalNotFullCounts<M>(s: State<M>)
    requires ListsOk(s)
    ensures Sum(WokenReceiver, SignalNotFull(s).pc) == Sum(WokenReceiver, s.pc)
  {
    if s.notFull != [] {
      var u := s.notFull[0];
      assert u in s.notFull;
      SumUpdate(WokenReceiver, s.pc, u, Wake(s.pc[u]));
    }
  }

  lemma PushKeepsClaimed<M>(s: State<M>, t: Task)
    requires Inv(s) && t < |s.pc| && (s.pc[t].Sending? || s.pc[t].Retrying?)
    ensures Claimed(SendSection(s, t, s.pc[t].msg))
  {
    var p := if s.queue == [] then Handing(s.pc[t].msg, |s.sent|) else Queued(s.pc[t].msg);
    SumUpdate(WokenReceiver, s.pc, t, p);
    ParkKeepsLists(s, t, p);
    if s.queue == [] {
      SignalNotEmptyCounts(ParkNotFull(s, t, p).(queue := [p.msg], sent := s.sent + [p.msg]));
    }
  }

  lemma PopKeepsClaimed<M>(s: State<M>, t: Task)
    requires Inv(s) && t < |s.pc| && (s.pc[t].Receiving? || s.pc[t].RecvWoken?)
    ensures Claimed(RecvSection(s, t))
  {
    if s.queue == [] {
      SumUpdate(WokenReceiver, s.pc, t, RecvParked);
    } else {
      SumUpdate(WokenReceiver, s.pc, t, Idle);
      MoveKeepsLists(s, t, Idle);
      var s1 := Popped(s, t);
      SignalKeepsLists(s1);
      SignalNotFullCounts(s1);
      SignalNotFullCounts(SignalNotFull(s1));
    }
  }

  lemma KeepsClaimed<M>(s: State<M>, a: Action<M>)
    requires Inv(s) && Enabled(s, a)
    ensures Claimed(Apply(s, a))
  {
    var t := a.t;
    if !a.Step? || s.pc[t].Returning? {
      SumUpdate(WokenReceiver, s.pc, t, Apply(s, a).pc[t]);
    } else if s.pc[t].Sending? || s.pc[t].Retrying? {
      PushKeepsClaimed(s, t);
    } else {
      PopKeepsClaimed(s, t);
    }
  }

  lemma KeepsInv<M>(s: State<M>, a: Action<M>)
    requires Inv(s) && Enabled(s, a)
    ensures Inv(Apply(s, a)) && |Apply(s, a).pc| == |s.pc|
  {
    KeepsConserved(s, a);
    KeepsLists(s, a);
    KeepsHanded(s, a);
    KeepsClaimed(s, a);
  }

  lemma {:induction false} RunKeepsInv<M>(s: State<M>, acts: seq<Action<M>>)
    requires Inv(s) && Executable(s, acts)
    ensures Inv(Exec(s, acts)) && |Exec(s, acts).pc| == |s.pc|
    decreases |acts|
  {
    if acts != [] {
      KeepsInv(s, acts[0]);
      RunKeepsInv(Apply(s, acts[0]), acts[1..]);
    }
  }

  // ---- main results

  predicate InSend<M>(p: Pc<M>) { p.Sending? || p.Queued? || p.Retrying? || p.Handing? || p.Returning? }

  lemma ReturnsFrom<M>(s: State<M>, a: Action<M>)
    requires Inv(s) && Enabled(s, a) && InSend(s.pc[a.t]) && Apply(s, a).pc[a.t].Idle?
    ensures s.pc[a.t].Returning? && s.pc[a.t].k < |s.received| && s.received[s.pc[a.t].k] == s.pc[a.t].msg
  {
    var t := a.t;
    if (s.pc[t].Sending? || s.pc[t].Retrying?) && s.queue == [] {
      var m := s.pc[t].msg;
      ParkKeepsLists(s, t, Handing(m, |s.sent|));
      SignalNotEmptyMoves(ParkNotFull(s, t, Handing(m, |s.sent|)).(queue := [m], sent := s.sent + [m]), t);
    }
  }

  /** A send returns only once its own message has been popped, with any number of tasks. */
  lemma {:induction false} SendReturnsAfterHandover<M>(n: nat, acts: seq<Action<M>>, a: Action<M>)
    requires Executable(Init(n), acts) && Enabled(Exec(Init(n), acts), a)
    ensures var s := Exec(Init(n), acts);
            InSend(s.pc[a.t]) && Apply(s, a).pc[a.t].Idle? ==>
              && s.pc[a.t].Returning?
              && s.pc[a.t].k < |s.received| && s.received[s.pc[a.t].k] == s.pc[a.t].msg
  {
    RunKeepsInv(Init<M>(n), acts);
    var s := Exec(Init(n), acts);
    if InSend(s.pc[a.t]) && Apply(s, a).pc[a.t].Idle? { ReturnsFrom(s, a); }
  }

  /** Order, conservation and the bound of one message. */
  lemma {:induction false} DeliversInOrder<M>(n: nat, acts: seq<Action<M>>)
    requires Executable(Init(n), acts)
    ensures var s := Exec(Init(n), acts);
            s.received + s.queue == s.sent && |s.queue| <= 1
  {
    RunKeepsInv(Init<M>(n), acts);
  }

  // ---- when two signals are enough

  function SendWeight<M>(p: Pc<M>): nat { if InSend(p) then 1 else 0 }

  /** At no moment of the run are more than `k` sends in progress. */
  ghost predicate Limited<M>(k: nat, s: State<M>, acts: seq<Action<M>>)
    decreases |acts|
  {
    Sum(SendWeight, s.pc) <= k &&
    (acts == [] || (Enabled(s, acts[0]) && Limited(k, Apply(s, acts[0]), acts[1..])))
  }

  /** The sender whose message is in the queue. */
  predicate Current<M>(s: State<M>, t: Task) { t < |s.pc| && s.pc[t].Handing? }

  predicate Unpushed<M>(s: State<M>, t: Task) { t < |s.pc| && s.pc[t].Queued? }

  /**
   The order of not_full with at most three senders: with a message queued its sender is
   among the first two and all others have not pushed; with none queued at most one sender
   is left on the list, and another unpushed one is on its way.
   */
  ghost predicate Tidy<M>(s: State<M>) {
    var q := s.notFull;
    && |q| <= 3
    && (s.queue != [] ==>
         || (|q| >= 1 && Current(s, q[0]) && (forall i :: 1 <= i < |q| ==> Unpushed(s, q[i])))
         || (|q| >= 2 && Current(s, q[1]) && Unpushed(s, q[0]) && (|q| == 3 ==> Unpushed(s, q[2]))))
    && (s.queue == [] && q != [] ==>
         |q| == 1 && Unpushed(s, q[0]) && exists r :: 0 <= r < |s.pc| && s.pc[r].Retrying?)
  }

  lemma ListFits<M>(s: State<M>, k: nat)
    requires ListsOk(s) && Sum(SendWeight, s.pc) <= k
    ensures |s.notFull| <= k
  {
    assert forall i :: i in s.notFull ==> SendWeight(s.pc[i]) > 0;
    SumCounts(SendWeight, s.pc, s.notFull);
  }

  lemma QueueKeepsTidy<M>(s: State<M>, t: Task)
    requires ListsOk(s) && Tidy(s) && t < |s.pc| && (s.pc[t].Sending? || s.pc[t].Retrying?)
    requires |s.notFull| <= 2 && s.queue != []
    ensures Tidy(ParkNotFull(s, t, Queued(s.pc[t].msg)))
  {
    assert t !in s.notFull;
  }

  /** The state between the push and the signal. */
  function PushedBy<M>(s: State<M>, t: Task, m: M): State<M>
    requires t < |s.pc|
  {
    ParkNotFull(s, t, Handing(m, |s.sent|)).(queue := [m], sent := s.sent + [m])
  }

  lemma PushedIsTidy<M>(s: State<M>, t: Task)
    requires Inv(s) && Tidy(s) && t < |s.pc| && (s.pc[t].Sending? || s.pc[t].Retrying?) && s.queue == []
    ensures Tidy(PushedBy(s, t, s.pc[t].msg))
  {
    assert t !in s.notFull;
  }

  /** The signal of a receiver moves no sender. */
  lemma SignalKeepsTidy<M>(s: State<M>)
    requires ListsOk(s) && Tidy(s) && s.queue != []
    ensures Tidy(SignalNotEmpty(s))
  {
    var s' := SignalNotEmpty(s);
    forall i | 0 <= i < |s.notFull|
      ensures s.notFull[i] < |s'.pc| && s'.pc[s.notFull[i]] == s.pc[s.notFull[i]]
    {
      assert s.notFull[i] in s.notFull;
      SignalNotEmptyMoves(s, s.notFull[i]);
    }
  }

  lemma PushKeepsTidy<M>(s: State<M>, t: Task)
    requires Inv(s) && Tidy(s) && t < |s.pc| && (s.pc[t].Sending? || s.pc[t].Retrying?)
    requires |s.notFull| <= 2
    ensures Tidy(SendSection(s, t, s.pc[t].msg))
  {
    if s.queue == [] {
      ParkKeepsLists(s, t, Handing(s.pc[t].msg, |s.sent|));
      PushedIsTidy(s, t);
      SignalKeepsTidy(PushedBy(s, t, s.pc[t].msg));
    } else {
      QueueKeepsTidy(s, t);
    }
  }

  lemma PopKeepsTidy<M>(s: State<M>, t: Task)
    requires Inv(s) && Tidy(s) && t < |s.pc| && (s.pc[t].Receiving? || s.pc[t].RecvWoken?) && s.queue != []
    ensures Tidy(RecvSection(s, t))
  {
    var q := s.notFull;
    var s1 := Popped(s, t);
    var s2 := SignalNotFull(s1);
    var s' := SignalNotFull(s2);
    assert t !in q;
    if |q| == 3 {
      assert q[0] in q && q[1] in q && q[2] in q;
      assert s'.notFull == [q[2]];
      assert s'.pc[q[0]].Retrying? || s'.pc[q[1]].Retrying?;
    } else {
      assert s'.notFull == [];
    }
  }

  lemma MoveKeepsTidy<M>(s: State<M>, t: Task, p: Pc<M>)
    requires Inv(s) && Tidy(s) && t < |s.pc| && (s.pc[t].Idle? || !AtRest(s.pc[t])) && !s.pc[t].Retrying?
    ensures Tidy(s.(pc := s.pc[t := p]))
  {
    assert t !in s.notFull;
    var s' := s.(pc := s.pc[t := p]);
    forall i | 0 <= i < |s.notFull|
      ensures s'.pc[s.notFull[i]] == s.pc[s.notFull[i]]
    {
      assert s.notFull[i] in s.notFull;
    }
    if s.queue == [] && s.notFull != [] {
      var r :| 0 <= r < |s.pc| && s.pc[r].Retrying?;
      assert s'.pc[r].Retrying?;
    }
  }

  lemma KeepsTidy<M>(s: State<M>, a: Action<M>)
    requires Inv(s) && Tidy(s) && Enabled(s, a) && Sum(SendWeight, Apply(s, a).pc) <= 3
    ensures Tidy(Apply(s, a))
  {
    var t := a.t;
    KeepsInv(s, a);
    ListFits(Apply(s, a), 3);
    if !a.Step? || s.pc[t].Returning? {
      MoveKeepsTidy(s, t, Apply(s, a).pc[t]);
    } else if s.pc[t].Sending? || s.pc[t].Retrying? {
      assert |Apply(s, a).notFull| == |s.notFull| + 1;
      PushKeepsTidy(s, t);
    } else if s.queue != [] {
      PopKeepsTidy(s, t);
    } else {
      MoveKeepsTidy(s, t, RecvParked);
    }
  }

  /** Once nobody can move: no sender waits before an empty queue, and not both sides wait. */
  ghost predicate Unstuck<M>(s: State<M>) {
    Still(s) ==>
      && (s.queue == [] ==> s.notFull == [])
      && (s.notFull == [] || s.notEmpty == [])
  }

  lemma TidyIsUnstuck<M>(s: State<M>)
    requires Inv(s) && Tidy(s)
    ensures Unstuck(s)
  {
    if Still(s) {
      forall t | 0 <= t < |s.pc| ensures AtRest(s.pc[t]) { assert !Enabled(s, Step(t)); }
      SumZero(WokenReceiver, s.pc);
    }
  }

  lemma {:induction false} LimitedRunUnstuck<M>(s: State<M>, acts: seq<Action<M>>)
    requires Inv(s) && Tidy(s) && Executable(s, acts) && Limited(3, s, acts)
    ensures Unstuck(Exec(s, acts))
    decreases |acts|
  {
    if acts == [] {
      TidyIsUnstuck(s);
    } else {
      KeepsInv(s, acts[0]);
      KeepsTidy(s, acts[0]);
      LimitedRunUnstuck(Apply(s, acts[0]), acts[1..]);
    }
  }

  lemma {:induction false} LimitMonotone<M>(k: nat, k': nat, s: State<M>, acts: seq<Action<M>>)
    requires k <= k' && Limited(k, s, acts)
    ensures Limited(k', s, acts)
    decreases |acts|
  {
    if acts != [] { LimitMonotone(k, k', Apply(s, acts[0]), acts[1..]); }
  }

  // ---- four senders can strand one of them

  lemma {:induction false} Snoc<M>(k: nat, s: State<M>, acts: seq<Action<M>>, a: Action<M>, s': State<M>)
    requires Executable(s, acts) && Limited(k, s, acts) && Enabled(Exec(s, acts), a)
    requires Apply(Exec(s, acts), a) == s' && Sum(SendWeight, s'.pc) <= k
    ensures Executable(s, acts + [a]) && Limited(k, s, acts + [a]) && Exec(s, acts + [a]) == s'
    decreases |acts|
  {
    if acts == [] {
      assert [a][1..] == [];
    } else {
      assert (acts + [a])[1..] == acts[1..] + [a];
      Snoc(k, Apply(s, acts[0]), acts[1..], a, s');
    }
  }

  /** Five tasks of which the last never sends, so at most four sends are in progress. */
  lemma FourSenders<M>(pc: seq<Pc<M>>)
    requires |pc| == 5 && !InSend(pc[4])
    ensures Sum(SendWeight, pc) <= 4
  {
    SumBound(SendWeight, pc[..4], 1);
  }

  /** Reached by five tasks with at most four sends in progress at any moment. */
  ghost predicate Reached(s: State<int>) {
    exists acts :: Executable(Init(5), acts) && Limited(4, Init(5), acts) && Exec(Init(5), acts) == s
  }

  lemma Then(s: State<int>, a: Action<int>) returns (s': State<int>)
    requires Reached(s) && Enabled(s, a)
    requires |Apply(s, a).pc| == 5 && !InSend(Apply(s, a).pc[4])
    ensures s' == Apply(s, a) && Reached(s')
  {
    s' := Apply(s, a);
    var acts :| Executable(Init(5), acts) && Limited(4, Init(5), acts) && Exec(Init(5), acts) == s;
    FourSenders(s'.pc);
    Snoc(4, Init(5), acts, a, s');
  }

  /** A send that finds a message queued parks unpushed. */
  lemma CallQueues(s: State<int>, t: Task) returns (s': State<int>)
    requires Reached(s) && |s.pc| == 5 && t < 4 && s.pc[t].Idle? && s.pc[4].Idle? && s.queue != []
    ensures s' == ParkNotFull(s, t, Queued(t)) && Reached(s')
  {
    s' := Then(s, Send(t, t));
    s' := Then(s', Step(t));
    assert s'.pc == s.pc[t := Queued(t)];
  }

  /** Task 4 receives the queued message. */
  lemma CallReceives(s: State<int>) returns (s': State<int>)
    requires Reached(s) && |s.pc| == 5 && s.pc[4].Idle? && |s.queue| == 1
    requires 2 <= |s.notFull| && s.notFull[0] < 4 && s.notFull[1] < 4 && s.notFull[0] != s.notFull[1]
    ensures Reached(s')
    ensures s'.queue == [] && s'.notFull == s.notFull[2..] && s'.notEmpty == s.notEmpty
    ensures s'.sent == s.sent && s'.received == s.received + s.queue
    ensures s'.pc == s.pc[s.notFull[0] := Wake(s.pc[s.notFull[0]])][s.notFull[1] := Wake(s.pc[s.notFull[1]])]
  {
    s' := Then(s, Recv(4));
    s' := Then(s', Step(4));
    assert s.received + [s.queue[0]] == s.received + s.queue;
  }

  /** Task 0 sends its own number as message, and pushes it. */
  lemma OneCalls() returns (s: State<int>)
    ensures Reached(s)
    ensures s == State([0], [0], [], [Handing(0, 0), Idle, Idle, Idle, Idle], [0], [])
  {
    s := Init(5);
    SumZero(SendWeight, s.pc);
    assert Executable(s, []) && Limited(4, s, []) && Exec(s, []) == s;
    s := Then(s, Send(0, 0));
    s := Then(s, Step(0));
    assert s.pc == [Handing(0, 0), Idle, Idle, Idle, Idle];
  }

  /** So do the other three, and queue behind it. */
  lemma FourCall() returns (s: State<int>)
    ensures Reached(s)
    ensures s == State([0], [0, 1, 2, 3], [], [Handing(0, 0), Queued(1), Queued(2), Queued(3), Idle], [0], [])
  {
    s := OneCalls();
    s := CallQueues(s, 1);
    assert s.pc == [Handing(0, 0), Queued(1), Idle, Idle, Idle];
    s := CallQueues(s, 2);
    assert s.pc == [Handing(0, 0), Queued(1), Queued(2), Idle, Idle];
    s := CallQueues(s, 3);
    assert s.pc == [Handing(0, 0), Queued(1), Queued(2), Queued(3), Idle];
  }

  /** A pop wakes tasks 0 and 1. */
  lemma FirstPop() returns (s: State<int>)
    ensures Reached(s)
    ensures s == State([], [2, 3], [], [Returning(0, 0), Retrying(1), Queued(2), Queued(3), Idle], [0], [0])
  {
    s := FourCall();
    s := CallReceives(s);
    assert s.pc == [Returning(0, 0), Retrying(1), Queued(2), Queued(3), Idle];
  }

  /** Task 1 pushes behind 2 and 3. */
  lemma SecondPush() returns (s: State<int>)
    ensures Reached(s)
    ensures s == State([1], [2, 3, 1], [], [Idle, Handing(1, 1), Queued(2), Queued(3), Idle], [0, 1], [0])
  {
    s := FirstPop();
    s := Then(s, Step(0));
    s := Then(s, Step(1));
    assert s.pc == [Idle, Handing(1, 1), Queued(2), Queued(3), Idle];
  }

  /** The next pop wakes 2 and 3 instead of 1. */
  lemma SecondPop() returns (s: State<int>)
    ensures Reached(s)
    ensures s == State([], [1], [], [Idle, Handing(1, 1), Retrying(2), Retrying(3), Idle], [0, 1], [0, 1])
  {
    s := SecondPush();
    s := CallReceives(s);
    assert s.pc == [Idle, Handing(1, 1), Retrying(2), Retrying(3), Idle];
  }

  /** Task 2 pushes and 3 queues behind it. */
  lemma ThirdPush() returns (s: State<int>)
    ensures Reached(s)
    ensures s == State([2], [1, 2, 3], [], [Idle, Handing(1, 1), Handing(2, 2), Queued(3), Idle], [0, 1, 2], [0, 1])
  {
    s := SecondPop();
    s := Then(s, Step(2));
    s := Then(s, Step(3));
    assert s.pc == [Idle, Handing(1, 1), Handing(2, 2), Queued(3), Idle];
  }

  /** The third pop spends a signal on 1, and 3 is left. */
  lemma ThirdPop() returns (s: State<int>)
    ensures Reached(s)
    ensures s == State([], [3], [], [Idle, Returning(1, 1), Returning(2, 2), Queued(3), Idle], [0, 1, 2], [0, 1, 2])
  {
    s := ThirdPush();
    s := CallReceives(s);
    assert s.pc == [Idle, Returning(1, 1), Returning(2, 2), Queued(3), Idle];
  }

  /** Tasks 1 and 2 return. */
  lemma TwoReturn() returns (s: State<int>)
    ensures Reached(s)
    ensures s == State([], [3], [], [Idle, Idle, Idle, Queued(3), Idle], [0, 1, 2], [0, 1, 2])
  {
    s := ThirdPop();
    s := Then(s, Step(1));
    s := Then(s, Step(2));
    assert s.pc == [Idle, Idle, Idle, Queued(3), Idle];
  }

  /** A sender and a receiver both parked, the queue empty, and nobody left to move. */
  lemma {:induction false} FourSendersCanStick() returns (acts: seq<Action<int>>)
    ensures Executable(Init(5), acts) && Limited(4, Init(5), acts)
    ensures Exec(Init(5), acts) ==
            State([], [3], [4], [Idle, Idle, Idle, Queued(3), RecvParked], [0, 1, 2], [0, 1, 2])
  {
    var s := TwoReturn();
    s := Then(s, Recv(4));
    s := Then(s, Step(4));
    assert s.pc == [Idle, Idle, Idle, Queued(3), RecvParked];
    acts :| Executable(Init(5), acts) && Limited(4, Init(5), acts) && Exec(Init(5), acts) == s;
  }

  lemma StickIsStuck()
    ensures !Unstuck(State([], [3], [4], [Idle, Idle, Idle, Queued(3), RecvParked], [0, 1, 2], [0, 1, 2]))
  {}

  lemma {:induction false} FewSendersUnstuck(k: nat, n: nat, acts: seq<Action<int>>)
    requires k <= 3 && Executable(Init(n), acts) && Limited(k, Init(n), acts)
    ensures Unstuck(Exec(Init(n), acts))
  {
    LimitMonotone(k, 3, Init(n), acts);
    LimitedRunUnstuck(Init(n), acts);
  }

  /** The unbuffered channel never gets stuck exactly when at most three sends overlap. */
  lemma {:induction false} UnstuckExactlyUpToThreeSenders(k: nat)
    ensures (forall n: nat, acts: seq<Action<int>> ::
               Executable(Init(n), acts) && Limited(k, Init(n), acts) ==> Unstuck(Exec(Init(n), acts)))
            <==> k <= 3
  {
    if k <= 3 {
      forall n: nat, acts: seq<Action<int>> | Executable(Init(n), acts) && Limited(k, Init(n), acts)
        ensures Unstuck(Exec(Init(n), acts))
      {
        FewSendersUnstuck(k, n, acts);
      }
    } else {
      var acts := FourSendersCanStick();
      StickIsStuck();
      LimitMonotone(4, k, Init(5), acts);
    }
  }

  // ---- every batch of calls comes to rest

  function Weight<M>(p: Pc<M>): nat {
    match p
    case Idle => 0
    case Handing(_, _) => 0
    case Returning(_, _) => 1
    case Queued(_) => 1
    case Sending(_) => 2
    case Retrying(_) => 2
    case RecvParked => 2
    case Receiving => 3
    case RecvWoken => 3
  }

  lemma SignalRaisesByOne<M>(s: State<M>)
    requires ListsOk(s)
    ensures Sum(Weight, SignalNotFull(s).pc) <= Sum(Weight, s.pc) + 1
    ensures Sum(Weight, SignalNotEmpty(s).pc) <= Sum(Weight, s.pc) + 1
  {
    if s.notFull != [] {
      assert s.notFull[0] in s.notFull;
      SumUpdate(Weight, s.pc, s.notFull[0], Wake(s.pc[s.notFull[0]]));
    }
    if s.notEmpty != [] {
      assert s.notEmpty[0] in s.notEmpty;
      SumUpdate(Weight, s.pc, s.notEmpty[0], Wake(s.pc[s.notEmpty[0]]));
    }
  }

  lemma StepLowersRank<M>(s: State<M>, t: Task)
    requires Inv(s) && Enabled(s, Step(t))
    ensures Sum(Weight, Apply(s, Step(t)).pc) < Sum(Weight, s.pc)
  {
    if s.pc[t].Returning? {
      SumUpdate(Weight, s.pc, t, Idle);
    } else if s.pc[t].Sending? || s.pc[t].Retrying? {
      var m := s.pc[t].msg;
      var p := if s.queue == [] then Handing(m, |s.sent|) else Queued(m);
      SumUpdate(Weight, s.pc, t, p);
      ParkKeepsLists(s, t, p);
      SignalRaisesByOne(ParkNotFull(s, t, p).(queue := [m], sent := s.sent + [m]));
    } else if s.queue == [] {
      SumUpdate(Weight, s.pc, t, RecvParked);
    } else {
      SumUpdate(Weight, s.pc, t, Idle);
      MoveKeepsLists(s, t, Idle);
      SignalKeepsLists(Popped(s, t));
      SignalRaisesByOne(Popped(s, t));
      SignalRaisesByOne(SignalNotFull(Popped(s, t)));
    }
  }

  /** Calls in progress come to rest within three critical sections per task. */
  lemma {:induction false} ComesToRest<M>(n: nat, past: seq<Action<M>>, acts: seq<Action<M>>)
    requires Executable(Init(n), past) && Executable(Exec(Init(n), past), acts)
    requires forall i :: 0 <= i < |acts| ==> acts[i].Step?
    ensures |acts| <= 3 * n
  {
    RunKeepsInv(Init<M>(n), past);
    RestsSoon(Exec(Init(n), past), acts);
  }

  lemma {:induction false} RestsSoon<M>(s: State<M>, acts: seq<Action<M>>)
    requires Inv(s) && Executable(s, acts) && forall i :: 0 <= i < |acts| ==> acts[i].Step?
    ensures |acts| <= 3 * |s.pc|
  {
    StepsEnd(s, acts);
    SumBound(Weight, s.pc, 3);
  }

  lemma {:induction false} StepsEnd<M>(s: State<M>, acts: seq<Action<M>>)
    requires Inv(s) && Executable(s, acts) && forall i :: 0 <= i < |acts| ==> acts[i].Step?
    ensures |acts| <= Sum(Weight, s.pc)
    decreases |acts|
  {
    if acts != [] {
      StepLowersRank(s, acts[0].t);
      KeepsInv(s, acts[0]);
      StepsEnd(Apply(s, acts[0]), acts[1..]);
    }
  }
}
