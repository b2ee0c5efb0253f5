/**
 The send and receive calls on an unbuffered channel, from their start to their return, with
 the message of a send read off the action that starts it.
 */
module RendezvousCalls {
  import opened Common
  import opened Rendezvous

  /** The message of the last send of each task, while that was its last call. */
  type Calls<M> = map<Task, M>

  function Started<M>(calls: Calls<M>, a: Action<M>): Calls<M> {
    match a
    case Send(t, m) => calls[t := m]
    case Recv(t) => calls - {t}
    case Step(_) => calls
  }

  predicate Returned<M>(s: State<M>, a: Action<M>)
    requires Enabled(s, a)
  {
    a.Step? && a.t < |Apply(s, a).pc| && Apply(s, a).pc[a.t].Idle?
  }

  /** The messages of the sends that have returned. */
  ghost function SendsReturned<M>(calls: Calls<M>, s: State<M>, acts: seq<Action<M>>): seq<M>
    requires Executable(s, acts)
    decreases |acts|
  {
    if acts == [] then []
    else SendReturned(calls, s, acts[0]) + SendsReturned(Started(calls, acts[0]), Apply(s, acts[0]), acts[1..])
  }

  ghost function SendReturned<M>(calls: Calls<M>, s: State<M>, a: Action<M>): seq<M>
    requires Enabled(s, a)
  {
    if Returned(s, a) && a.t in calls then [calls[a.t]] else []
  }

  /** The receives that have returned, each with the head of the queue it found, in order. */
  ghost function RecvsReturned<M>(calls: Calls<M>, s: State<M>, acts: seq<Action<M>>): seq<Option<M>>
    requires Executable(s, acts)
    decreases |acts|
  {
    if acts == [] then []
    else RecvReturned(calls, s, acts[0]) + RecvsReturned(Started(calls, acts[0]), Apply(s, acts[0]), acts[1..])
  }

  ghost function RecvReturned<M>(calls: Calls<M>, s: State<M>, a: Action<M>): seq<Option<M>>
    requires Enabled(s, a)
  {
    if !Returned(s, a) || a.t in calls then [] else [if s.queue == [] then None else Some(s.queue[0])]
  }

  /** The messages of all sends made, and the number of receives made. */
  function Sends<M>(acts: seq<Action<M>>): seq<M> {
    if acts == [] then [] else SentBy(acts[0]) + Sends(acts[1..])
  }

  function SentBy<M>(a: Action<M>): seq<M> { if a.Send? then [a.m] else [] }

  function RecvCalls<M>(acts: seq<Action<M>>): nat {
    if acts == [] then 0 else (if acts[0].Recv? then 1 else 0) + RecvCalls(acts[1..])
  }

  // ---- the messages in the hands of the senders

  /** Whether a send has message `x` in hand and has not pushed it, or has. */
  ghost function Unpushed<M>(x: M, p: Pc<M>): nat {
    if (p.Sending? || p.Queued? || p.Retrying?) && p.msg == x then 1 else 0
  }

  ghost function Pushed<M>(x: M, p: Pc<M>): nat {
    if (p.Handing? || p.Returning?) && p.msg == x then 1 else 0
  }

  /** How many sends have message `x` in hand, not pushed or pushed. */
  ghost function AllUnpushed<M>(x: M, pc: seq<Pc<M>>): nat {
    if pc == [] then 0 else Unpushed(x, pc[|pc| - 1]) + AllUnpushed(x, pc[..|pc| - 1])
  }

  ghost function AllPushed<M>(x: M, pc: seq<Pc<M>>): nat {
    if pc == [] then 0 else Pushed(x, pc[|pc| - 1]) + AllPushed(x, pc[..|pc| - 1])
  }

  ghost function Copies<M>(x: M, q: seq<M>): nat { multiset(q)[x] }

  predicate InRecv<M>(p: Pc<M>) { p.Receiving? || p.RecvParked? || p.RecvWoken? }

  function RecvWeight<M>(p: Pc<M>): nat { if InRecv(p) then 1 else 0 }

  lemma {:induction false} HandsUpdate<M>(x: M, pc: seq<Pc<M>>, i: nat, p: Pc<M>)
    requires i < |pc|
    ensures AllUnpushed(x, pc[i := p]) == AllUnpushed(x, pc) - Unpushed(x, pc[i]) + Unpushed(x, p)
    ensures AllPushed(x, pc[i := p]) == AllPushed(x, pc) - Pushed(x, pc[i]) + Pushed(x, p)
    decreases |pc|
  {
    var k := |pc| - 1;
    if i == k {
      assert pc[i := p][..k] == pc[..k];
    } else {
      assert pc[i := p][..k] == pc[..k][i := p];
      HandsUpdate(x, pc[..k], i, p);
    }
  }

  lemma {:induction false} EmptyHands<M>(x: M, n: nat)
    ensures AllUnpushed(x, seq(n, _ => Idle)) == 0 && AllPushed(x, seq(n, _ => Idle)) == 0
  {
    if n > 0 {
      assert seq<Pc<M>>(n, _ => Idle)[..n - 1] == seq<Pc<M>>(n - 1, _ => Idle);
      EmptyHands(x, n - 1);
    }
  }

  /** No copy of `x` changes hands. */
  ghost predicate SameHands<M>(x: M, pc: seq<Pc<M>>, pc': seq<Pc<M>>) {
    AllUnpushed(x, pc') == AllUnpushed(x, pc) && AllPushed(x, pc') == AllPushed(x, pc)
  }

  lemma {:induction false} WakeMovesNothing<M>(x: M, pc: seq<Pc<M>>, u: Task)
    requires u < |pc|
    ensures SameHands(x, pc, pc[u := Wake(pc[u])])
  {
    HandsUpdate(x, pc, u, Wake(pc[u]));
  }

  lemma {:induction false} SignalsMoveNothing<M>(x: M, s: State<M>)
    ensures SameHands(x, s.pc, SignalNotFull(s).pc) && SameHands(x, s.pc, SignalNotEmpty(s).pc)
  {
    if s.notFull != [] && s.notFull[0] < |s.pc| { WakeMovesNothing(x, s.pc, s.notFull[0]); }
    if s.notEmpty != [] && s.notEmpty[0] < |s.pc| { WakeMovesNothing(x, s.pc, s.notEmpty[0]); }
  }

  lemma {:induction false} SignalsMoveNoReceiver<M>(s: State<M>)
    ensures Sum(RecvWeight, SignalNotFull(s).pc) == Sum(RecvWeight, s.pc)
    ensures Sum(RecvWeight, SignalNotEmpty(s).pc) == Sum(RecvWeight, s.pc)
  {
    if s.notFull != [] && s.notFull[0] < |s.pc| {
      SumUpdate(RecvWeight, s.pc, s.notFull[0], Wake(s.pc[s.notFull[0]]));
    }
    if s.notEmpty != [] && s.notEmpty[0] < |s.pc| {
      SumUpdate(RecvWeight, s.pc, s.notEmpty[0], Wake(s.pc[s.notEmpty[0]]));
    }
  }

  // ---- a task in a send carries the message of its call

  ghost predicate Carries<M>(calls: Calls<M>, p: Pc<M>, t: Task) {
    && (InSend(p) ==> t in calls && calls[t] == p.msg)
    && (InRecv(p) ==> t !in calls)
  }

  ghost predicate AllCarry<M>(calls: Calls<M>, s: State<M>) {
    forall t :: 0 <= t < |s.pc| ==> Carries(calls, s.pc[t], t)
  }

  lemma SignalsCarry<M>(calls: Calls<M>, s: State<M>)
    requires AllCarry(calls, s)
    ensures AllCarry(calls, SignalNotFull(s)) && AllCarry(calls, SignalNotEmpty(s))
  {
    if s.notFull != [] && s.notFull[0] < |s.pc| { assert Carries(calls, s.pc[s.notFull[0]], s.notFull[0]); }
    if s.notEmpty != [] && s.notEmpty[0] < |s.pc| { assert Carries(calls, s.pc[s.notEmpty[0]], s.notEmpty[0]); }
  }

  lemma KeepsCarry<M>(calls: Calls<M>, s: State<M>, a: Action<M>)
    requires AllCarry(calls, s) && Enabled(s, a)
    ensures AllCarry(Started(calls, a), Apply(s, a))
  {
    var t := a.t;
    assert Carries(calls, s.pc[t], t);
    if a.Step? && (s.pc[t].Sending? || s.pc[t].Retrying?) {
      var m := s.pc[t].msg;
      if s.queue == [] {
        SignalsCarry(calls, ParkNotFull(s, t, Handing(m, |s.sent|)).(queue := [m], sent := s.sent + [m]));
      }
    } else if a.Step? && !s.pc[t].Returning? && s.queue != [] {
      SignalsCarry(calls, Popped(s, t));
      SignalsCarry(calls, SignalNotFull(Popped(s, t)));
    } else if !a.Step? {
      forall x | 0 <= x < |s.pc| && x != t ensures Carries(Started(calls, a), s.pc[x], x) {
        assert Carries(calls, s.pc[x], x);
      }
    }
  }

  // ---- sends

  /** What one action does to the copies of message `x`. */
  ghost predicate SendsBalance<M>(x: M, calls: Calls<M>, s: State<M>, a: Action<M>)
    requires Enabled(s, a)
  {
    var s' := Apply(s, a);
    && Copies(x, s'.sent) + AllUnpushed(x, s'.pc) == Copies(x, s.sent) + AllUnpushed(x, s.pc) + Copies(x, SentBy(a))
    && Copies(x, s'.sent) + AllPushed(x, s.pc) ==
       Copies(x, s.sent) + AllPushed(x, s'.pc) + Copies(x, SendReturned(calls, s, a))
  }

  /** A sender that has not pushed is still in its call after its next critical section. */
  lemma {:induction false} PushStays<M>(s: State<M>, t: Task)
    requires Enabled(s, Step(t)) && (s.pc[t].Sending? || s.pc[t].Retrying?)
    ensures !Returned(s, Step(t)) && Apply(s, Step(t)).received == s.received
  {}

  lemma {:induction false} CopiesAppend<M>(x: M, a: seq<M>, b: seq<M>)
    ensures Copies(x, a + b) == Copies(x, a) + Copies(x, b)
  {}

  lemma {:induction false} PushHandsOver<M>(x: M, s: State<M>, t: Task)
    requires Enabled(s, Step(t)) && (s.pc[t].Sending? || s.pc[t].Retrying?) && s.queue == []
    ensures var s', m := Apply(s, Step(t)), s.pc[t].msg;
            && s'.sent == s.sent + [m]
            && AllUnpushed(x, s'.pc) == AllUnpushed(x, s.pc) - Copies(x, [m])
            && AllPushed(x, s'.pc) == AllPushed(x, s.pc) + Copies(x, [m])
  {
    var p := Handing(s.pc[t].msg, |s.sent|);
    HandsUpdate(x, s.pc, t, p);
    SignalsMoveNothing(x, ParkNotFull(s, t, p).(queue := [p.msg], sent := s.sent + [p.msg]));
  }

  lemma {:induction false} PushBalances<M>(x: M, calls: Calls<M>, s: State<M>, t: Task)
    requires Enabled(s, Step(t)) && (s.pc[t].Sending? || s.pc[t].Retrying?)
    ensures SendsBalance(x, calls, s, Step(t))
  {
    PushStays(s, t);
    if s.queue == [] {
      PushHandsOver(x, s, t);
      CopiesAppend(x, s.sent, [s.pc[t].msg]);
    } else {
      HandsUpdate(x, s.pc, t, Queued(s.pc[t].msg));
    }
  }

  lemma {:induction false} PopMovesNothing<M>(x: M, s: State<M>, t: Task)
    requires Enabled(s, Step(t)) && InRecv(s.pc[t])
    ensures Apply(s, Step(t)).sent == s.sent && SameHands(x, s.pc, Apply(s, Step(t)).pc)
  {
    if s.queue == [] {
      HandsUpdate(x, s.pc, t, RecvParked);
    } else {
      HandsUpdate(x, s.pc, t, Idle);
      SignalsMoveNothing(x, Popped(s, t));
      SignalsMoveNothing(x, SignalNotFull(Popped(s, t)));
    }
  }

  lemma {:induction false} PopBalances<M>(x: M, calls: Calls<M>, s: State<M>, t: Task)
    requires Enabled(s, Step(t)) && InRecv(s.pc[t]) && t !in calls
    ensures SendsBalance(x, calls, s, Step(t))
  {
    PopMovesNothing(x, s, t);
  }

  lemma {:induction false} CallBalances<M>(x: M, calls: Calls<M>, s: State<M>, a: Action<M>)
    requires Enabled(s, a) && !a.Step?
    ensures SendsBalance(x, calls, s, a)
  {
    HandsUpdate(x, s.pc, a.t, Apply(s, a).pc[a.t]);
  }

  lemma {:induction false} ReturnBalances<M>(x: M, calls: Calls<M>, s: State<M>, t: Task)
    requires Enabled(s, Step(t)) && s.pc[t].Returning? && t in calls && calls[t] == s.pc[t].msg
    ensures SendsBalance(x, calls, s, Step(t))
  {
    HandsUpdate(x, s.pc, t, Idle);
  }

  lemma {:induction false} ActionBalances<M>(x: M, calls: Calls<M>, s: State<M>, a: Action<M>)
    requires Enabled(s, a) && Carries(calls, s.pc[a.t], a.t)
    ensures SendsBalance(x, calls, s, a)
  {
    if a.Step? {
      if InRecv(s.pc[a.t]) {
        PopBalances(x, calls, s, a.t);
      } else if s.pc[a.t].Returning? {
        ReturnBalances(x, calls, s, a.t);
      } else {
        PushBalances(x, calls, s, a.t);
      }
    } else {
      CallBalances(x, calls, s, a);
    }
  }

  lemma {:induction false} SendsFrom<M>(x: M, calls: Calls<M>, s: State<M>, acts: seq<Action<M>>)
    requires AllCarry(calls, s) && Executable(s, acts)
    ensures var s' := Exec(s, acts);
            && Copies(x, s'.sent) + AllUnpushed(x, s'.pc) ==
               Copies(x, s.sent) + AllUnpushed(x, s.pc) + Copies(x, Sends(acts))
            && Copies(x, s'.sent) + AllPushed(x, s.pc) ==
               Copies(x, s.sent) + AllPushed(x, s'.pc) + Copies(x, SendsReturned(calls, s, acts))
    decreases |acts|
  {
    if acts != [] {
      var a, s', calls' := acts[0], Apply(s, acts[0]), Started(calls, acts[0]);
      KeepsCarry(calls, s, a);
      ActionBalances(x, calls, s, a);
      SendsFrom(x, calls', s', acts[1..]);
      CopiesAppend(x, SentBy(a), Sends(acts[1..]));
      CopiesAppend(x, SendReturned(calls, s, a), SendsReturned(calls', s', acts[1..]));
    }
  }

  /**
   No message is lost or sent twice.  Counted with repetitions, the messages of all send calls
   are those sent and those their senders have not pushed yet; and the messages sent are those
   of the sends that have returned and of the senders still waiting for the handover.
   */
  lemma {:induction false} EverySendPushesOnce<M>(n: nat, acts: seq<Action<M>>, x: M)
    requires Executable(Init(n), acts)
    ensures var s0 := Init<M>(n); var s := Exec(s0, acts);
            && Copies(x, Sends(acts)) == Copies(x, s.sent) + AllUnpushed(x, s.pc)
            && Copies(x, s.sent) == Copies(x, SendsReturned(map[], s0, acts)) + AllPushed(x, s.pc)
  {
    var s0 := Init<M>(n);
    SendsFrom(x, map[], s0, acts);
    EmptyHands(x, n);
  }

  /** The sends the tasks have last started. */
  function LastSends<M>(calls: Calls<M>, acts: seq<Action<M>>): Calls<M>
    decreases |acts|
  {
    if acts == [] then calls else LastSends(Started(calls, acts[0]), acts[1..])
  }

  lemma {:induction false} CarryFrom<M>(calls: Calls<M>, s: State<M>, acts: seq<Action<M>>)
    requires AllCarry(calls, s) && Executable(s, acts)
    ensures AllCarry(LastSends(calls, acts), Exec(s, acts))
    decreases |acts|
  {
    if acts != [] {
      KeepsCarry(calls, s, acts[0]);
      CarryFrom(Started(calls, acts[0]), Apply(s, acts[0]), acts[1..]);
    }
  }

  /** A send returns only once the message it was called with has been received. */
  lemma {:induction false} SendReturnsItsOwn<M>(n: nat, acts: seq<Action<M>>, t: Task)
    requires Executable(Init(n), acts) && Enabled(Exec(Init(n), acts), Step(t))
    requires t in LastSends(map[], acts) && Returned(Exec(Init(n), acts), Step(t))
    ensures LastSends(map[], acts)[t] in Exec(Init(n), acts).received
  {
    var s := Exec(Init<M>(n), acts);
    CarryFrom(map[], Init<M>(n), acts);
    assert Carries(LastSends(map[], acts), s.pc[t], t);
    SendReturnsAfterHandover(n, acts, Step(t));
  }

  // ---- receives

  /** A step takes a receiver out of its call exactly when it moves the head of the queue to `received`. */
  lemma {:induction false} RecvOutcome<M>(calls: Calls<M>, s: State<M>, a: Action<M>)
    requires Enabled(s, a) && Carries(calls, s.pc[a.t], a.t)
    ensures Somes(Apply(s, a).received) == Somes(s.received) + RecvReturned(calls, s, a)
  {
    if a.Step? && (s.pc[a.t].Sending? || s.pc[a.t].Retrying?) {
      PushStays(s, a.t);
    } else if a.Step? && InRecv(s.pc[a.t]) && s.queue != [] {
      SomesAppend(s.received, s.queue[0]);
    }
  }

  lemma {:induction false} SomesAppend<M>(q: seq<M>, m: M)
    ensures Somes(q + [m]) == Somes(q) + [Some(m)]
  {}

  lemma {:induction false} RecvsBalance<M>(s: State<M>, a: Action<M>)
    requires Enabled(s, a)
    ensures var s' := Apply(s, a);
            |s'.received| + Sum(RecvWeight, s'.pc) == |s.received| + Sum(RecvWeight, s.pc) + (if a.Recv? then 1 else 0)
  {
    if a.Step? && (s.pc[a.t].Sending? || s.pc[a.t].Retrying?) {
      PushKeepsReceivers(s, a.t);
    } else if a.Step? && InRecv(s.pc[a.t]) && s.queue != [] {
      PopTakesReceiver(s, a.t);
    } else {
      SumUpdate(RecvWeight, s.pc, a.t, Apply(s, a).pc[a.t]);
    }
  }

  lemma {:induction false} PopTakesReceiver<M>(s: State<M>, t: Task)
    requires Enabled(s, Step(t)) && InRecv(s.pc[t]) && s.queue != []
    ensures var s' := Apply(s, Step(t));
            |s'.received| == |s.received| + 1 && Sum(RecvWeight, s'.pc) == Sum(RecvWeight, s.pc) - 1
  {
    SumUpdate(RecvWeight, s.pc, t, Idle);
    SignalsMoveNoReceiver(Popped(s, t));
    SignalsMoveNoReceiver(SignalNotFull(Popped(s, t)));
  }

  lemma {:induction false} PushKeepsReceivers<M>(s: State<M>, t: Task)
    requires Enabled(s, Step(t)) && (s.pc[t].Sending? || s.pc[t].Retrying?)
    ensures var s' := Apply(s, Step(t));
            s'.received == s.received && Sum(RecvWeight, s'.pc) == Sum(RecvWeight, s.pc)
  {
    var p := if s.queue == [] then Handing(s.pc[t].msg, |s.sent|) else Queued(s.pc[t].msg);
    SumUpdate(RecvWeight, s.pc, t, p);
    SignalsMoveNoReceiver(ParkNotFull(s, t, p).(queue := [p.msg], sent := s.sent + [p.msg]));
  }

  lemma {:induction false} RecvsFrom<M>(calls: Calls<M>, s: State<M>, acts: seq<Action<M>>)
    requires AllCarry(calls, s) && Executable(s, acts)
    ensures Somes(Exec(s, acts).received) == Somes(s.received) + RecvsReturned(calls, s, acts)
    decreases |acts|
  {
    if acts != [] {
      var a, s', calls' := acts[0], Apply(s, acts[0]), Started(calls, acts[0]);
      KeepsCarry(calls, s, a);
      RecvOutcome(calls, s, a);
      RecvsFrom(calls', s', acts[1..]);
      AppendAssociates(Somes(s.received), RecvReturned(calls, s, a), RecvsReturned(calls', s', acts[1..]));
    }
  }

  lemma {:induction false} RecvsBalanceFrom<M>(s: State<M>, acts: seq<Action<M>>)
    requires Executable(s, acts)
    ensures var s' := Exec(s, acts);
            |s'.received| + Sum(RecvWeight, s'.pc) == |s.received| + Sum(RecvWeight, s.pc) + RecvCalls(acts)
    decreases |acts|
  {
    if acts != [] {
      RecvsBalance(s, acts[0]);
      RecvsBalanceFrom(Apply(s, acts[0]), acts[1..]);
    }
  }

  /** The i-th receive to return found, and took, the i-th message received; all others are still in progress. */
  lemma {:induction false} EveryReceiveTakesOne<M>(n: nat, acts: seq<Action<M>>)
    requires Executable(Init(n), acts)
    ensures var s0 := Init<M>(n); var s := Exec(s0, acts);
            && Somes(s.received) == RecvsReturned(map[], s0, acts)
            && RecvCalls(acts) == |s.received| + Sum(RecvWeight, s.pc)
  {
    var s0 := Init<M>(n);
    RecvsFrom(map[], s0, acts);
    RecvsBalanceFrom(s0, acts);
    SumZero(RecvWeight, s0.pc);
    assert Somes(s0.received) + RecvsReturned(map[], s0, acts) == RecvsReturned(map[], s0, acts);
  }

  /** Once no task can move, a message still queued means that every receive has returned with one. */
  lemma {:induction false} RestMeansServed<M>(n: nat, acts: seq<Action<M>>)
    requires Executable(Init(n), acts) && Still(Exec(Init(n), acts))
    ensures var s := Exec(Init<M>(n), acts);
            s.queue != [] ==> RecvCalls(acts) == |s.received| && forall p :: p in s.pc ==> !InRecv(p)
  {
    var s := Exec(Init<M>(n), acts);
    RunKeepsInv(Init<M>(n), acts);
    EveryReceiveTakesOne(n, acts);
    if s.queue != [] { NobodyReceiving(s); }
  }

  lemma {:induction false} NobodyReceiving<M>(s: State<M>)
    requires Inv(s) && s.queue != [] && Still(s)
    ensures Sum(RecvWeight, s.pc) == 0 && forall p :: p in s.pc ==> !InRecv(p)
  {
    forall t | 0 <= t < |s.pc| ensures !s.pc[t].RecvWoken? && !s.pc[t].Receiving? { assert !Enabled(s, Step(t)); }
    SumZero(WokenReceiver, s.pc);
    assert s.notEmpty == [];
    forall p | p in s.pc ensures !InRecv(p) {
      var t: Task :| t < |s.pc| && s.pc[t] == p;
      assert t !in s.notEmpty;
    }
    SumZero(RecvWeight, s.pc);
  }
}
