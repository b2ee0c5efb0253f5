/**
 The one-shot barrier of co_bar.h over the mutex and condition variable.  A critical section
 is one step, except that the last arriver's broadcast resumes its waiters one by one while
 it holds the mutex, and that the first test of the counter is made without the mutex.
 */
module Barrier {
  import opened Common

  type Task = nat

  datatype Pc =
    | Idle
    | Peek           // co_bar_wait: the unlocked read of count
    | Enter          //   about to take the mutex
    | Waiting        //   parked in co_cond_wait
    | Woken          //   resumed, about to re-take the mutex and test count again
    | Broadcasting   //   the last arriver, holding the mutex in co_cond_broadcast

  /** `arrivals` and `returned` are history: decrements of count, and calls that returned. */
  datatype State = State(
    count: int, mutex: Option<Task>, condQueue: seq<Task>, pc: seq<Pc>, arrivals: nat, returned: nat)

  datatype Action = Call(t: Task) | Step(t: Task)

  function Init(n: nat, cnt: nat): State {
    State(cnt, None, [], seq(n, _ => Idle), 0, 0)
  }

  function At(s: State, t: Task, p: Pc): State
    requires t < |s.pc|
  {
    s.(pc := s.pc[t := p])
  }

  function Return(s: State, t: Task): State
    requires t < |s.pc|
  {
    At(s, t, Idle).(returned := s.returned + 1)
  }

  function Park(s: State, t: Task): State
    requires t < |s.pc|
  {
    At(s, t, Waiting).(condQueue := s.condQueue + [t])
  }

  predicate Enabled(s: State, a: Action) {
    a.t < |s.pc| &&
    match a
    case Call(t) => s.pc[t].Idle?
    case Step(t) =>
      match s.pc[t]
      case Idle | Waiting => false
      case Enter | Woken => s.mutex.None?
      case _ => true
  }

  function Apply(s: State, a: Action): State
    requires Enabled(s, a)
  {
    match a
    case Call(t) => At(s, t, Peek)
    case Step(t) =>
      match s.pc[t]
      case Peek => if s.count == 0 then Return(s, t) else At(s, t, Enter)
      case Enter =>
        if s.count == 0 then Return(s, t)
        else
          var s1 := s.(count := s.count - 1, arrivals := s.arrivals + 1);
          if s1.count == 0 then At(s1, t, Broadcasting).(mutex := Some(t))
          else if s1.count > 0 then Park(s1, t)
          else Return(s1, t)
      case Broadcasting =>
        if s.condQueue == [] then Return(s, t).(mutex := None)
        else
          var u := s.condQueue[0];
          s.(condQueue := s.condQueue[1..], pc := if u < |s.pc| then s.pc[u := Woken] else s.pc)
      case _ => if s.count > 0 then Park(s, t) else Return(s, t)
  }

  /** No task can move. */
  ghost predicate Still(s: State) {
    forall t :: !Enabled(s, Step(t))
  }

  predicate Executable(s: State, acts: seq<Action>)
    decreases |acts|
  {
    acts == [] || (Enabled(s, acts[0]) && Executable(Apply(s, acts[0]), acts[1..]))
  }

  function Exec(s: State, acts: seq<Action>): State
    requires Executable(s, acts)
    decreases |acts|
  {
    if acts == [] then s else Exec(Apply(s, acts[0]), acts[1..])
  }

  // ---- invariant

  ghost predicate ListOk(s: State) {
    && Distinct(s.condQueue)
    && forall t: Task :: t in s.condQueue <==> t < |s.pc| && s.pc[t].Waiting?
  }

  ghost predicate MutexOk(s: State) {
    && (s.mutex.Some? ==> s.mutex.value < |s.pc|)
    && forall t :: 0 <= t < |s.pc| ==> (s.pc[t].Broadcasting? <==> s.mutex == Some(t))
  }

  /**
   Before the last arrival every arriver is parked and nothing has returned; after it, only
   the broadcast in progress can still have parked tasks in front of it.
   */
  ghost predicate Phases(cnt: nat, s: State) {
    && s.count == cnt - s.arrivals >= 0
    && (s.count > 0 ==>
         && s.returned == 0 && s.mutex.None? && |s.condQueue| == s.arrivals
         && forall t :: 0 <= t < |s.pc| ==> !s.pc[t].Woken?)
    && (s.count == 0 && s.mutex.None? ==> s.condQueue == [])
  }

  ghost predicate Inv(cnt: nat, s: State) { ListOk(s) && MutexOk(s) && Phases(cnt, s) }

  lemma KeepsList(s: State, a: Action)
    requires ListOk(s) && MutexOk(s) && Enabled(s, a)
    ensures ListOk(Apply(s, a))
  {
    assert a.t !in s.condQueue;
    DistinctSnoc(s.condQueue, a.t);
    if s.condQueue != [] { DistinctTail(s.condQueue); }
  }

  lemma KeepsMutex(s: State, a: Action)
    requires ListOk(s) && MutexOk(s) && Enabled(s, a)
    ensures MutexOk(Apply(s, a)) && |Apply(s, a).pc| == |s.pc|
  {
    assert s.pc[a.t].Broadcasting? <==> s.mutex == Some(a.t);
    if s.condQueue != [] { assert s.condQueue[0] in s.condQueue; }
  }

  lemma KeepsPhases(cnt: nat, s: State, a: Action)
    requires Inv(cnt, s) && Enabled(s, a)
    ensures Phases(cnt, Apply(s, a))
  {
    assert s.pc[a.t].Broadcasting? <==> s.mutex == Some(a.t);
  }

  lemma {:induction false} RunKeepsInv(cnt: nat, s: State, acts: seq<Action>)
    requires Inv(cnt, s) && Executable(s, acts)
    ensures Inv(cnt, Exec(s, acts)) && |Exec(s, acts).pc| == |s.pc|
    decreases |acts|
  {
    if acts != [] {
      KeepsList(s, acts[0]);
      KeepsMutex(s, acts[0]);
      KeepsPhases(cnt, s, acts[0]);
      RunKeepsInv(cnt, Apply(s, acts[0]), acts[1..]);
    }
  }

  // ---- main results

  /** No call returned before `cnt` calls have arrived, and the counter never goes negative. */
  lemma {:induction false} HoldsUntilAllArrived(n: nat, cnt: nat, acts: seq<Action>)
    requires Executable(Init(n, cnt), acts)
    ensures var s := Exec(Init(n, cnt), acts);
            && 0 <= s.count == cnt - s.arrivals
            && (s.returned > 0 ==> s.arrivals == cnt)
            && (s.arrivals < cnt ==> |s.condQueue| == s.arrivals)
  {
    RunKeepsInv(cnt, Init(n, cnt), acts);
  }

  /** Once the last arriver has finished its broadcast, no task is or ever becomes parked. */
  lemma {:induction false} NobodyParksAfterRelease(n: nat, cnt: nat, past: seq<Action>, acts: seq<Action>)
    requires Executable(Init(n, cnt), past) && Executable(Exec(Init(n, cnt), past), acts)
    requires var s := Exec(Init(n, cnt), past); s.arrivals == cnt && s.mutex.None?
    ensures var s := Exec(Exec(Init(n, cnt), past), acts);
            s.condQueue == [] && forall t :: 0 <= t < |s.pc| ==> !s.pc[t].Waiting?
  {
    RunKeepsInv(cnt, Init(n, cnt), past);
    RunStaysReleased(cnt, Exec(Init(n, cnt), past), acts);
  }

  lemma {:induction false} RunStaysReleased(cnt: nat, s: State, acts: seq<Action>)
    requires Inv(cnt, s) && Executable(s, acts) && s.count == 0 && s.mutex.None?
    ensures var s' := Exec(s, acts);
            s'.condQueue == [] && forall t :: 0 <= t < |s'.pc| ==> !s'.pc[t].Waiting?
    decreases |acts|
  {
    if acts == [] {
      assert forall t: Task :: t < |s.pc| && s.pc[t].Waiting? ==> t in s.condQueue;
    } else {
      KeepsList(s, acts[0]);
      KeepsMutex(s, acts[0]);
      KeepsPhases(cnt, s, acts[0]);
      assert s.pc[acts[0].t].Broadcasting? <==> s.mutex == Some(acts[0].t);
      RunStaysReleased(cnt, Apply(s, acts[0]), acts[1..]);
    }
  }

  function Weight(p: Pc): nat {
    match p
    case Idle => 0
    case Woken => 1
    case Waiting => 2
    case Broadcasting => 1
    case Enter => 3
    case Peek => 4
  }

  lemma StepLowersRank(cnt: nat, s: State, t: Task)
    requires Inv(cnt, s) && Enabled(s, Step(t))
    ensures Sum(Weight, Apply(s, Step(t)).pc) < Sum(Weight, s.pc)
  {
    var s' := Apply(s, Step(t));
    if s.pc[t].Broadcasting? && s.condQueue != [] {
      assert s.condQueue[0] in s.condQueue;
      SumUpdate(Weight, s.pc, s.condQueue[0], Woken);
    } else {
      assert s.pc[t].Woken? ==> s.count == 0;
      SumUpdate(Weight, s.pc, t, s'.pc[t]);
      assert s'.pc == s.pc[t := s'.pc[t]];
    }
  }

  lemma {:induction false} StepsEnd(cnt: nat, s: State, acts: seq<Action>)
    requires Inv(cnt, s) && Executable(s, acts) && forall i :: 0 <= i < |acts| ==> acts[i].Step?
    ensures |acts| <= Sum(Weight, s.pc)
    decreases |acts|
  {
    if acts != [] {
      StepLowersRank(cnt, s, acts[0].t);
      KeepsList(s, acts[0]);
      KeepsMutex(s, acts[0]);
      KeepsPhases(cnt, s, acts[0]);
      StepsEnd(cnt, Apply(s, acts[0]), acts[1..]);
    }
  }

  /**
   The calls in progress come to rest within four steps per task, and once no task can
   move somebody is parked exactly when some but fewer than `cnt` calls have arrived.
   */
  lemma {:induction false} ReleasesEveryone(n: nat, cnt: nat, past: seq<Action>, acts: seq<Action>)
    requires Executable(Init(n, cnt), past) && Executable(Exec(Init(n, cnt), past), acts)
    requires forall i :: 0 <= i < |acts| ==> acts[i].Step?
    ensures |acts| <= 4 * n
    ensures var s := Exec(Exec(Init(n, cnt), past), acts);
            Still(s) ==>
              ((exists t :: 0 <= t < |s.pc| && s.pc[t].Waiting?) <==> 0 < s.arrivals < cnt)
  {
    RunKeepsInv(cnt, Init(n, cnt), past);
    var s := Exec(Init(n, cnt), past);
    StepsEnd(cnt, s, acts);
    SumBound(Weight, s.pc, 4);
    RunKeepsInv(cnt, s, acts);
    var s' := Exec(s, acts);
    assert s'.mutex.Some? ==> Enabled(s', Step(s'.mutex.value));
    assert s'.condQueue != [] ==> s'.condQueue[0] in s'.condQueue;
  }

  // ---- every call is accounted for

  function Calls(acts: seq<Action>): nat {
    if acts == [] then 0 else (if acts[0].Call? then 1 else 0) + Calls(acts[1..])
  }

  function InsideWeight(p: Pc): nat { if p.Idle? then 0 else 1 }

  /** In a call that has not taken the mutex yet. */
  function EarlyWeight(p: Pc): nat { if p.Peek? || p.Enter? then 1 else 0 }

  /** A broadcast moves a second task, from parked to woken. */
  lemma WeightsFollow(s: State, a: Action)
    requires ListOk(s) && Enabled(s, a)
    ensures var pc, pc' := s.pc, Apply(s, a).pc;
            && |pc'| == |pc|
            && Sum(InsideWeight, pc') == Sum(InsideWeight, pc) - InsideWeight(pc[a.t]) + InsideWeight(pc'[a.t])
            && Sum(EarlyWeight, pc') == Sum(EarlyWeight, pc) - EarlyWeight(pc[a.t]) + EarlyWeight(pc'[a.t])
  {
    var pc, pc' := s.pc, Apply(s, a).pc;
    if a.Step? && pc[a.t].Broadcasting? && s.condQueue != [] {
      var u := s.condQueue[0];
      assert u in s.condQueue;
      SumUpdate(InsideWeight, pc, u, Woken);
      SumUpdate(EarlyWeight, pc, u, Woken);
    } else {
      assert pc' == pc[a.t := pc'[a.t]];
      SumUpdate(InsideWeight, pc, a.t, pc'[a.t]);
      SumUpdate(EarlyWeight, pc, a.t, pc'[a.t]);
    }
  }

  /** After `calls` calls: each has returned or is inside, and before the last arrival each has arrived or is early. */
  ghost predicate Accounted(calls: nat, s: State) {
    && s.arrivals <= calls == s.returned + Sum(InsideWeight, s.pc)
    && (s.count > 0 ==> calls == s.arrivals + Sum(EarlyWeight, s.pc))
  }

  lemma KeepsAccounted(cnt: nat, calls: nat, s: State, a: Action)
    requires Inv(cnt, s) && Accounted(calls, s) && Enabled(s, a)
    ensures Accounted(calls + (if a.Call? then 1 else 0), Apply(s, a))
  {
    WeightsFollow(s, a);
  }

  lemma {:induction false} AccountedFrom(cnt: nat, calls: nat, s: State, acts: seq<Action>)
    requires Inv(cnt, s) && Accounted(calls, s) && Executable(s, acts)
    ensures Accounted(calls + Calls(acts), Exec(s, acts))
    decreases |acts|
  {
    if acts != [] {
      KeepsList(s, acts[0]);
      KeepsMutex(s, acts[0]);
      KeepsPhases(cnt, s, acts[0]);
      KeepsAccounted(cnt, calls, s, acts[0]);
      AccountedFrom(cnt, calls + (if acts[0].Call? then 1 else 0), Apply(s, acts[0]), acts[1..]);
    }
  }

  /** Where a task is once nobody can move. */
  lemma RestsIdleOrParked(cnt: nat, s: State, t: Task)
    requires Inv(cnt, s) && t < |s.pc| && Still(s)
    ensures s.mutex.None? && (s.pc[t].Idle? || t in s.condQueue)
  {
    assert s.mutex.Some? ==> Enabled(s, Step(s.mutex.value));
    assert !Enabled(s, Step(t));
  }

  lemma {:induction false} RestFrom(cnt: nat, calls: nat, s: State)
    requires Inv(cnt, s) && Accounted(calls, s) && Still(s)
    ensures if calls >= cnt then s.returned == calls && forall t :: 0 <= t < |s.pc| ==> s.pc[t].Idle?
            else s.returned == 0 && |s.condQueue| == s.arrivals == calls
  {
    forall t | 0 <= t < |s.pc| ensures s.mutex.None? && (s.pc[t].Idle? || t in s.condQueue) {
      RestsIdleOrParked(cnt, s, t);
    }
    if s.count > 0 {
      SumZero(EarlyWeight, s.pc);
    } else {
      NobodyParked(cnt, s);
      SumZero(InsideWeight, s.pc);
    }
  }

  lemma NobodyParked(cnt: nat, s: State)
    requires Inv(cnt, s) && s.count == 0 && Still(s)
    ensures s.condQueue == []
  {
    assert s.mutex.Some? ==> Enabled(s, Step(s.mutex.value));
  }

  /**
   Once nobody can move: with `cnt` calls or more every call has returned and every task is
   idle, and with fewer none has returned and each has arrived and is parked.
   */
  lemma {:induction false} OpensExactlyAtCount(n: nat, cnt: nat, acts: seq<Action>)
    requires Executable(Init(n, cnt), acts) && Still(Exec(Init(n, cnt), acts))
    ensures var s := Exec(Init(n, cnt), acts);
            if Calls(acts) >= cnt then s.returned == Calls(acts) && forall t :: 0 <= t < |s.pc| ==> s.pc[t].Idle?
            else s.returned == 0 && |s.condQueue| == s.arrivals == Calls(acts)
  {
    SumZero(InsideWeight, Init(n, cnt).pc);
    SumZero(EarlyWeight, Init(n, cnt).pc);
    RunKeepsInv(cnt, Init(n, cnt), acts);
    AccountedFrom(cnt, 0, Init(n, cnt), acts);
    RestFrom(cnt, Calls(acts), Exec(Init(n, cnt), acts));
  }

  // ---- a call by itself

  lemma {:induction false} ExecCons(s: State, a: Action, acts: seq<Action>)
    requires Enabled(s, a) && Executable(Apply(s, a), acts)
    ensures Executable(s, [a] + acts) && Exec(s, [a] + acts) == Exec(Apply(s, a), acts)
  {
    assert ([a] + acts)[1..] == acts;
  }

  /** In every reachable state an idle task can call, and arrive in two steps, or pass in one once all have arrived. */
  lemma {:induction false} CallsAtOnce(n: nat, cnt: nat, acts: seq<Action>, t: Task)
    requires Executable(Init(n, cnt), acts)
    requires var s := Exec(Init(n, cnt), acts); t < |s.pc| && s.pc[t].Idle?
    ensures var s := Exec(Init(n, cnt), acts);
            var pass := [Call(t)] + ([Step(t)] + []);
            var arrive := [Call(t)] + ([Step(t)] + ([Step(t)] + []));
            if s.arrivals == cnt then Executable(s, pass) && Exec(s, pass).returned == s.returned + 1
            else Executable(s, arrive) && Exec(s, arrive).arrivals == s.arrivals + 1 && Exec(s, arrive).returned == 0
  {
    var s := Exec(Init(n, cnt), acts);
    RunKeepsInv(cnt, Init(n, cnt), acts);
    var s1 := Apply(s, Call(t));
    var s2 := Apply(s1, Step(t));
    if s.arrivals == cnt {
      ExecCons(s1, Step(t), []);
      ExecCons(s, Call(t), [Step(t)] + []);
    } else {
      ExecCons(s2, Step(t), []);
      ExecCons(s1, Step(t), [Step(t)] + []);
      ExecCons(s, Call(t), [Step(t)] + ([Step(t)] + []));
    }
  }
}
