/**
 What each call of co_mutex.c and co_cond.c has done when it returns, over every interleaving
 with the other tasks.  Where Mutex speaks about single states, this module follows one task
 from the start of a call to the first state in which it is outside every call again.
 */
module MutexCalls {
  import opened Common
  import opened Mutex

  /** Between calls: without the mutex, or as its owner. */
  predicate Outside(p: Pc) { p.Idle? || p.Crit? }

  /** `t` is inside its call in every state of the run but, perhaps, the last. */
  predicate StaysInside(s: State, t: Task, acts: seq<Action>)
    requires Executable(s, acts)
    decreases |acts|
  {
    t < |s.pc| &&
    (acts == [] || (!Outside(s.pc[t]) && StaysInside(Apply(s, acts[0]), t, acts[1..])))
  }

  /** The run ends with the return of the call `t` is in. */
  predicate Returns(s: State, t: Task, acts: seq<Action>)
    requires Executable(s, acts)
  {
    StaysInside(s, t, acts) && t < |Exec(s, acts).pc| && Outside(Exec(s, acts).pc[t])
  }

  /** The owner words `t` found at its own steps. */
  function Seen(s: State, t: Task, acts: seq<Action>): seq<Option<Task>>
    requires Executable(s, acts)
    decreases |acts|
  {
    if acts == [] then []
    else (if acts[0] == Step(t) then [s.owner] else []) + Seen(Apply(s, acts[0]), t, acts[1..])
  }

  /** Some step of `t` changes the owner word from `before` to `after`. */
  predicate Changes(s: State, t: Task, acts: seq<Action>, before: Option<Task>, after: Option<Task>)
    requires Executable(s, acts)
    decreases |acts|
  {
    acts != [] &&
    var s' := Apply(s, acts[0]);
    (acts[0] == Step(t) && s.owner == before && s'.owner == after) || Changes(s', t, acts[1..], before, after)
  }

  /** How often `t` tried for the mutex in co_mutex_lock and found it owned. */
  function FailedTries(s: State, t: Task, acts: seq<Action>): nat
    requires Executable(s, acts)
    decreases |acts|
  {
    if acts == [] then 0
    else
      (if acts[0] == Step(t) && s.pc[t].Acquire? && s.owner.Some? then 1 else 0)
      + FailedTries(Apply(s, acts[0]), t, acts[1..])
  }

  /** A call that has returned takes no further actions into account. */
  lemma {:induction false} EndsOutside(s: State, t: Task, acts: seq<Action>)
    requires Executable(s, acts) && StaysInside(s, t, acts) && Outside(s.pc[t])
    ensures acts == [] && Exec(s, acts) == s
  {}

  lemma {:induction false} ReturnsLater(s: State, t: Task, acts: seq<Action>)
    requires Executable(s, acts) && Returns(s, t, acts) && acts != []
    ensures Returns(Apply(s, acts[0]), t, acts[1..])
  {}

  // ---- own steps

  /** The steps a task can still make in its call without failing to get the mutex. */
  function Left(p: Pc): nat {
    match p
    case Idle | Crit => 0
    case TryCas | Acquire | Parked => 1
    case CondParked | BackOff | Leave => 2
    case Append => 3
    case Recheck => 4
    case WantWait => 5
    case WakeSkip(c) => 1 + LeftAfter(c)
    case Wake(c, _) => 1 + LeftAfter(c)
    case WakeUnspin(c, _) => 2 + LeftAfter(c)
    case WakePop(c) => 3 + LeftAfter(c)
    case WakeCheck(c) => 4 + LeftAfter(c)
    case WakeSpin(c) => 5 + LeftAfter(c)
    case Release(c) => 6 + LeftAfter(c)
  }

  function LeftAfter(cond: bool): nat { if cond then 2 else 0 }

  lemma StepSpends(s: State, a: Action, t: Task)
    requires Enabled(s, a) && t < |s.pc| && !Outside(s.pc[t]) && (HoldsMutex(s.pc[t]) <==> s.owner == Some(t))
    ensures t < |Apply(s, a).pc|
    ensures Left(Apply(s, a).pc[t]) + (if a == Step(t) then 1 else 0) <=
              Left(s.pc[t]) + (if a == Step(t) && s.pc[t].Acquire? && s.owner.Some? then 5 else 0)
  {
    PcFrame(s, a, t);
  }

  lemma {:induction false} OwnStepsFrom(s: State, t: Task, acts: seq<Action>)
    requires Inv(s) && Executable(s, acts) && StaysInside(s, t, acts)
    ensures |Seen(s, t, acts)| <= Left(s.pc[t]) + 5 * FailedTries(s, t, acts)
    decreases |acts|
  {
    if acts != [] {
      KeepsInv(s, acts[0]);
      StepSpends(s, acts[0], t);
      OwnStepsFrom(Apply(s, acts[0]), t, acts[1..]);
    }
  }

  // ---- unlock

  /** Inside the unlock of co_mutex_unlock. */
  predicate Unlocking(p: Pc) {
    (p.Release? || p.WakeSpin? || p.WakeCheck? || p.WakeSkip? || p.WakePop? || p.WakeUnspin? || p.Wake?) && !p.cond
  }

  /** An unlock goes on until it returns without the mutex; its first step frees the owner word. */
  lemma UnlockStep(s: State, a: Action, t: Task)
    requires MutualExclusion(s) && Enabled(s, a) && t < |s.pc| && Unlocking(s.pc[t])
    ensures var s' := Apply(s, a);
            && t < |s'.pc| && (Unlocking(s'.pc[t]) || s'.pc[t].Idle?)
            && (s.pc[t].Release? ==>
                  if a == Step(t) then s.owner == Some(t) && s'.owner.None? else s'.pc[t] == s.pc[t])
  {
    PcFrame(s, a, t);
    assert HoldsMutex(s.pc[t]) <==> s.owner == Some(t);
  }

  lemma {:induction false} UnlockFrom(s: State, t: Task, acts: seq<Action>)
    requires Inv(s) && t < |s.pc| && Unlocking(s.pc[t]) && Executable(s, acts) && StaysInside(s, t, acts)
    ensures FailedTries(s, t, acts) == 0
    ensures Returns(s, t, acts) ==>
              Exec(s, acts).pc[t].Idle? && (s.pc[t].Release? ==> Changes(s, t, acts, Some(t), None))
    decreases |acts|
  {
    if acts != [] {
      var s' := Apply(s, acts[0]);
      KeepsInv(s, acts[0]);
      UnlockStep(s, acts[0], t);
      if Unlocking(s'.pc[t]) { UnlockFrom(s', t, acts[1..]); } else { EndsOutside(s', t, acts[1..]); }
    }
  }

  // ---- lock, and the re-acquire of a cond wait

  predicate Acquiring(p: Pc) { InCondWait(p) || Contends(p) }

  /** Such a call returns only by the step that takes the owner word from free to its own task. */
  lemma AcquireStep(s: State, a: Action, t: Task)
    requires MutualExclusion(s) && Enabled(s, a) && t < |s.pc| && Acquiring(s.pc[t])
    ensures var s' := Apply(s, a);
            && t < |s'.pc|
            && (|| Acquiring(s'.pc[t])
                || (a == Step(t) && s.owner.None? && s'.owner == Some(t) && s'.pc[t].Crit?))
            && (s.pc[t].Release? ==>
                  if a == Step(t) then s.owner == Some(t) && s'.owner.None? else s'.pc[t] == s.pc[t])
  {
    PcFrame(s, a, t);
    assert HoldsMutex(s.pc[t]) <==> s.owner == Some(t);
  }

  lemma {:induction false} AcquireFrom(s: State, t: Task, acts: seq<Action>)
    requires Inv(s) && t < |s.pc| && Acquiring(s.pc[t]) && Executable(s, acts) && Returns(s, t, acts)
    ensures Exec(s, acts).pc[t].Crit? && Changes(s, t, acts, None, Some(t))
    ensures s.pc[t].Release? ==> Changes(s, t, acts, Some(t), None)
    decreases |acts|
  {
    if acts != [] {
      var s' := Apply(s, acts[0]);
      KeepsInv(s, acts[0]);
      AcquireStep(s, acts[0], t);
      ReturnsLater(s, t, acts);
      if Acquiring(s'.pc[t]) { AcquireFrom(s', t, acts[1..]); } else { EndsOutside(s', t, acts[1..]); }
    }
  }

  // ---- main results

  /** Where a call starts. */
  lemma {:induction false} CallStarts(n: nat, past: seq<Action>, t: Task, call: Call)
    requires Executable(Init(n), past) && Enabled(Exec(Init(n), past), Do(t, call))
    ensures var s := Exec(Init(n), past); var s' := Apply(s, Do(t, call));
            && Inv(s') && t < |s'.pc|
            && (call.Lock? && s.pc[t].Idle? ==> s'.pc[t].Acquire?)
            && (call.TryLock? ==> if s.pc[t].Crit? then s' == s else s'.pc[t].TryCas?)
            && (call.Unlock? && s.pc[t].Crit? ==> s'.pc[t] == Release(false))
            && (call.CondWait? && s.pc[t].Crit? ==> s'.pc[t] == Release(true) && t in s'.condQueue)
  {
    var s := Exec(Init(n), past);
    RunKeepsInv(Init(n), past);
    KeepsInv(s, Do(t, call));
    assert HoldsMutex(s.pc[t]) <==> s.owner == Some(t);
  }

  /** A lock call returns only as the owner, by its own CAS on a free word, five steps after each failed one. */
  lemma {:induction false} LockAcquires(n: nat, past: seq<Action>, t: Task, acts: seq<Action>)
    requires Executable(Init(n), past) && Enabled(Exec(Init(n), past), Do(t, Lock))
    requires Exec(Init(n), past).pc[t].Idle?
    requires Executable(Apply(Exec(Init(n), past), Do(t, Lock)), acts)
    requires StaysInside(Apply(Exec(Init(n), past), Do(t, Lock)), t, acts)
    ensures var s := Apply(Exec(Init(n), past), Do(t, Lock));
            && |Seen(s, t, acts)| <= 5 * FailedTries(s, t, acts) + 1
            && (Returns(s, t, acts) ==> Exec(s, acts).pc[t].Crit? && Changes(s, t, acts, None, Some(t)))
  {
    var s := Exec(Init(n), past);
    CallStarts(n, past, t, Lock);
    OwnStepsFrom(Apply(s, Do(t, Lock)), t, acts);
    if Returns(Apply(s, Do(t, Lock)), t, acts) { AcquireFrom(Apply(s, Do(t, Lock)), t, acts); }
  }

  /** An unlock by the owner returns within six steps, without the mutex, having freed the owner word. */
  lemma {:induction false} UnlockReleases(n: nat, past: seq<Action>, t: Task, acts: seq<Action>)
    requires Executable(Init(n), past) && Enabled(Exec(Init(n), past), Do(t, Unlock))
    requires Exec(Init(n), past).pc[t].Crit?
    requires Executable(Apply(Exec(Init(n), past), Do(t, Unlock)), acts)
    requires StaysInside(Apply(Exec(Init(n), past), Do(t, Unlock)), t, acts)
    ensures var s := Apply(Exec(Init(n), past), Do(t, Unlock));
            && |Seen(s, t, acts)| <= 6
            && (Returns(s, t, acts) ==> Exec(s, acts).pc[t].Idle? && Changes(s, t, acts, Some(t), None))
  {
    var s := Exec(Init(n), past);
    CallStarts(n, past, t, Unlock);
    OwnStepsFrom(Apply(s, Do(t, Unlock)), t, acts);
    UnlockFrom(Apply(s, Do(t, Unlock)), t, acts);
  }

  lemma {:induction false} OwnerNotQueued(s: State, t: Task, acts: seq<Action>)
    requires Inv(s) && Executable(s, acts) && t < |Exec(s, acts).pc| && Exec(s, acts).pc[t].Crit?
    ensures t !in Exec(s, acts).condQueue
  {
    RunKeepsInv(s, acts);
  }

  /** A cond wait by the owner returns as the owner, having freed the word, left the queue and taken it again. */
  lemma {:induction false} CondWaitReacquires(n: nat, past: seq<Action>, t: Task, acts: seq<Action>)
    requires Executable(Init(n), past) && Enabled(Exec(Init(n), past), Do(t, CondWait))
    requires Exec(Init(n), past).pc[t].Crit?
    requires Executable(Apply(Exec(Init(n), past), Do(t, CondWait)), acts)
    requires StaysInside(Apply(Exec(Init(n), past), Do(t, CondWait)), t, acts)
    ensures var s := Apply(Exec(Init(n), past), Do(t, CondWait));
            && |Seen(s, t, acts)| <= 5 * FailedTries(s, t, acts) + 8
            && t in s.condQueue
            && (Returns(s, t, acts) ==>
                  && Exec(s, acts).pc[t].Crit? && t !in Exec(s, acts).condQueue
                  && Changes(s, t, acts, Some(t), None) && Changes(s, t, acts, None, Some(t)))
  {
    var s := Apply(Exec(Init(n), past), Do(t, CondWait));
    CallStarts(n, past, t, CondWait);
    OwnStepsFrom(s, t, acts);
    if Returns(s, t, acts) {
      AcquireFrom(s, t, acts);
      OwnerNotQueued(s, t, acts);
    }
  }

  lemma {:induction false} TryFrom(s: State, t: Task, acts: seq<Action>)
    requires Inv(s) && t < |s.pc| && s.pc[t].TryCas? && Executable(s, acts) && Returns(s, t, acts)
    ensures |Seen(s, t, acts)| == 1
    ensures Exec(s, acts).pc[t] == if Seen(s, t, acts)[0].None? then Crit else Idle
    decreases |acts|
  {
    var s' := Apply(s, acts[0]);
    KeepsInv(s, acts[0]);
    PcFrame(s, acts[0], t);
    ReturnsLater(s, t, acts);
    if acts[0] == Step(t) { EndsOutside(s', t, acts[1..]); } else { TryFrom(s', t, acts[1..]); }
  }

  /** A try-lock makes one step, and fails exactly when that step finds an owner; an owner's own changes nothing. */
  lemma {:induction false} TryLockTries(n: nat, past: seq<Action>, t: Task, acts: seq<Action>)
    requires Executable(Init(n), past) && Enabled(Exec(Init(n), past), Do(t, TryLock))
    requires Executable(Apply(Exec(Init(n), past), Do(t, TryLock)), acts)
    requires Returns(Apply(Exec(Init(n), past), Do(t, TryLock)), t, acts)
    ensures var s0 := Exec(Init(n), past); var s := Apply(s0, Do(t, TryLock));
            if s0.pc[t].Crit? then s == s0 && acts == []
            else |Seen(s, t, acts)| == 1 && Exec(s, acts).pc[t] == if Seen(s, t, acts)[0].None? then Crit else Idle
  {
    var s := Exec(Init(n), past);
    CallStarts(n, past, t, TryLock);
    if s.pc[t].Idle? { TryFrom(Apply(s, Do(t, TryLock)), t, acts); }
  }

  /**
   A task inside a call can move, unless wait_lock is held by another task, which can, or it
   waits: for the owner to unlock, or for a signal.
   */
  ghost predicate MovesOrWaits(s: State, t: Task)
    requires t < |s.pc|
  {
    || CanStep(s, t)
    || (s.spin.Some? && s.spin.value != t && CanStep(s, s.spin.value))
    || (s.pc[t].Parked? && (t in s.waiters || exists u :: InHandOf(s, t, u) && CanStep(s, u)))
    || (s.pc[t].CondParked? && t in s.condQueue)
  }

  lemma SpinHolderMoves(s: State, t: Task)
    requires SpinExclusion(s) && t < |s.pc| && !HoldsSpin(s.pc[t]) && s.spin.Some?
    ensures s.spin.value != t && CanStep(s, s.spin.value)
  {
    assert HoldsSpin(s.pc[s.spin.value]);
  }

  lemma ParkedIsAccounted(s: State, t: Task)
    requires ParkedOk(s) && t < |s.pc| && s.pc[t].Parked?
    ensures t in s.waiters || exists u :: InHandOf(s, t, u) && CanStep(s, u)
  {
    if t !in s.waiters {
      var u :| InHandOf(s, t, u);
      assert CanStep(s, u);
    }
  }

  lemma {:induction false} CallsMove(n: nat, acts: seq<Action>, t: Task)
    requires Executable(Init(n), acts)
    requires t < |Exec(Init(n), acts).pc| && !Outside(Exec(Init(n), acts).pc[t])
    ensures MovesOrWaits(Exec(Init(n), acts), t)
  {
    RunKeepsInv(Init(n), acts);
    var s := Exec(Init(n), acts);
    if s.pc[t].Parked? {
      ParkedIsAccounted(s, t);
    } else if !HoldsSpin(s.pc[t]) && s.spin.Some? {
      SpinHolderMoves(s, t);
    }
  }

  // ---- the condition variable serves in order

  /** Whom this action adds to the condition queue: an owner that calls co_cond_wait. */
  function Joins(s: State, a: Action): seq<Task>
    requires Enabled(s, a)
  {
    if a.Do? && a.call.CondWait? && s.pc[a.t].Crit? then [a.t] else []
  }

  /** Whether this action is a signal that finds somebody waiting. */
  function Serves(s: State, a: Action): nat
    requires Enabled(s, a)
  {
    if a.Do? && a.call.CondSignal? && s.condQueue != [] then 1 else 0
  }

  /** The tasks that have called co_cond_wait as owners, in order. */
  function Waited(s: State, acts: seq<Action>): seq<Task>
    requires Executable(s, acts)
    decreases |acts|
  {
    if acts == [] then [] else Joins(s, acts[0]) + Waited(Apply(s, acts[0]), acts[1..])
  }

  function Signals(s: State, acts: seq<Action>): nat
    requires Executable(s, acts)
    decreases |acts|
  {
    if acts == [] then 0 else Serves(s, acts[0]) + Signals(Apply(s, acts[0]), acts[1..])
  }

  lemma CondQueueStep(s: State, a: Action)
    requires MutualExclusion(s) && Enabled(s, a)
    ensures Serves(s, a) <= |s.condQueue|
    ensures Apply(s, a).condQueue == s.condQueue[Serves(s, a)..] + Joins(s, a)
  {
    assert HoldsMutex(s.pc[a.t]) <==> s.owner == Some(a.t);
  }

  lemma {:induction false} Rejoin(q: seq<Task>, k: nat, w: seq<Task>, k': nat, w': seq<Task>)
    requires k <= |q| && k' <= |q[k..] + w + w'|
    ensures (q[k..] + w + w')[k'..] == (q + (w + w'))[k + k'..]
  {
    assert q[k..] + w + w' == (q + (w + w'))[k..];
  }

  lemma {:induction false} CondQueueFrom(s: State, acts: seq<Action>)
    requires Inv(s) && Executable(s, acts)
    ensures var all := s.condQueue + Waited(s, acts);
            Signals(s, acts) <= |all| && Exec(s, acts).condQueue == all[Signals(s, acts)..]
    decreases |acts|
  {
    if acts != [] {
      var s', rest := Apply(s, acts[0]), acts[1..];
      KeepsInv(s, acts[0]);
      CondQueueStep(s, acts[0]);
      CondQueueFrom(s', rest);
      Rejoin(s.condQueue, Serves(s, acts[0]), Joins(s, acts[0]), Signals(s', rest), Waited(s', rest));
    }
  }

  /** Signals take the waiters off the condition in the order they came, one each. */
  lemma {:induction false} SignalsServeInOrder(n: nat, acts: seq<Action>)
    requires Executable(Init(n), acts)
    ensures Signals(Init(n), acts) <= |Waited(Init(n), acts)|
    ensures Exec(Init(n), acts).condQueue == Waited(Init(n), acts)[Signals(Init(n), acts)..]
  {
    CondQueueFrom(Init(n), acts);
    assert [] + Waited(Init(n), acts) == Waited(Init(n), acts);
  }

  // ---- a call that need not wait

  lemma {:induction false} ExecCons(s: State, a: Action, acts: seq<Action>)
    requires Enabled(s, a) && Executable(Apply(s, a), acts)
    ensures Executable(s, [a] + acts) && Exec(s, [a] + acts) == Exec(Apply(s, a), acts)
  {
    assert ([a] + acts)[1..] == acts;
  }

  /** In every reachable state with the mutex free, an idle task can take it by lock or try-lock in one step. */
  lemma {:induction false} LockAtOnce(n: nat, acts: seq<Action>, t: Task, call: Call)
    requires Executable(Init(n), acts) && (call.Lock? || call.TryLock?)
    requires var s := Exec(Init(n), acts); !s.panicked && t < |s.pc| && s.pc[t].Idle? && s.owner.None?
    ensures var s, both := Exec(Init(n), acts), [Do(t, call)] + ([Step(t)] + []);
            && Executable(s, both) && Exec(s, both).owner == Some(t)
            && t < |Exec(s, both).pc| && Exec(s, both).pc[t].Crit?
  {
    var s := Exec(Init(n), acts);
    ExecCons(Apply(s, Do(t, call)), Step(t), []);
    ExecCons(s, Do(t, call), [Step(t)] + []);
  }

  /** In the unlock of an unlock call, or of a condition wait, that nothing but its own steps is missing to. */
  predicate Unhindered(s: State, t: Task, cond: bool) {
    && t < |s.pc| && !s.panicked && (if cond then InCondWait(s.pc[t]) && !s.pc[t].CondParked? else Unlocking(s.pc[t]))
    && (s.pc[t].Release? || s.pc[t].WakeSpin? ==> s.spin.None?)
  }

  lemma {:induction false} UnlockCanStep(s: State, t: Task, cond: bool)
    requires MutualExclusion(s) && Unhindered(s, t, cond)
    ensures Enabled(s, Step(t)) && t < |Advance(s, t).pc| && Left(Advance(s, t).pc[t]) < Left(s.pc[t])
    ensures Unhindered(Advance(s, t), t, cond) || Advance(s, t).pc[t] == AfterUnlock(cond)
  {
    StepSpends(s, Step(t), t);
  }

  lemma {:induction false} UnlockFinishes(s: State, t: Task, cond: bool) returns (acts: seq<Action>)
    requires Inv(s) && Unhindered(s, t, cond)
    ensures Executable(s, acts) && StaysInside(s, t, acts) && forall i :: 0 <= i < |acts| ==> acts[i] == Step(t)
    ensures t < |Exec(s, acts).pc| && Exec(s, acts).pc[t] == AfterUnlock(cond)
    decreases Left(s.pc[t])
  {
    UnlockCanStep(s, t, cond);
    KeepsInv(s, Step(t));
    var s' := Apply(s, Step(t));
    if s'.pc[t] == AfterUnlock(cond) { acts := []; } else { acts := UnlockFinishes(s', t, cond); }
    ExecCons(s, Step(t), acts);
    assert ([Step(t)] + acts)[1..] == acts;
    acts := [Step(t)] + acts;
  }

  /**
   In every reachable state with wait_lock free the owner can unlock by its own steps alone,
   and likewise start a condition wait and come to rest in it, queued and without the mutex.
   */
  lemma {:induction false} UnlockUnhindered(n: nat, past: seq<Action>, t: Task, cond: bool) returns (acts: seq<Action>)
    requires Executable(Init(n), past)
    requires var s := Exec(Init(n), past); !s.panicked && t < |s.pc| && s.pc[t].Crit? && s.spin.None?
    ensures Enabled(Exec(Init(n), past), Do(t, UnlockCall(cond)))
    ensures var s := Apply(Exec(Init(n), past), Do(t, UnlockCall(cond)));
            && Executable(s, acts) && StaysInside(s, t, acts) && t < |Exec(s, acts).pc|
            && Exec(s, acts).pc[t] == AfterUnlock(cond) && (forall i :: 0 <= i < |acts| ==> acts[i] == Step(t))
  {
    CallStarts(n, past, t, UnlockCall(cond));
    PanicsExactlyOnMisuse(n, past, Do(t, UnlockCall(cond)));
    acts := UnlockFinishes(Apply(Exec(Init(n), past), Do(t, UnlockCall(cond))), t, cond);
  }

  function UnlockCall(cond: bool): Call { if cond then CondWait else Unlock }

  /** In every reachable state the owner can signal, and the task waiting longest can then leave the condition. */
  lemma {:induction false} SignalReleasesOldest(n: nat, acts: seq<Action>, t: Task)
    requires Executable(Init(n), acts)
    requires var s := Exec(Init(n), acts); !s.panicked && t < |s.pc| && s.pc[t].Crit? && s.condQueue != []
    ensures var s := Exec(Init(n), acts);
            && Enabled(s, Do(t, CondSignal))
            && var s', u := Apply(s, Do(t, CondSignal)), s.condQueue[0];
               && u !in s'.condQueue && s'.condQueue == s.condQueue[1..]
               && u < |s'.pc| && InCondWait(s'.pc[u]) && (s'.pc[u].CondParked? ==> Enabled(s', Step(u)))
  {
    RunKeepsInv(Init(n), acts);
    SignalReleases(Exec(Init(n), acts), t);
  }

  lemma {:induction false} SignalReleases(s: State, t: Task)
    requires CondOk(s) && !s.panicked && t < |s.pc| && s.pc[t].Crit? && s.condQueue != []
    ensures Enabled(s, Do(t, CondSignal))
    ensures var s', u := Apply(s, Do(t, CondSignal)), s.condQueue[0];
            && u !in s'.condQueue && s'.condQueue == s.condQueue[1..]
            && u < |s'.pc| && InCondWait(s'.pc[u]) && (s'.pc[u].CondParked? ==> Enabled(s', Step(u)))
  {
    DistinctTail(s.condQueue);
    assert s.condQueue[0] in s.condQueue;
  }
}
