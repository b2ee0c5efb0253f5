/**
 The coroutine mutex of co_mutex.c, together with the release and re-acquire that
 co_cond_wait performs on it (co_cond.c).

 Any number of tasks run interleaved.  One step is one atomic access of the source: a read
 of the owner word, a compare-and-swap on it, taking or dropping the wait-list spin lock, or
 one wait-list operation made under that spin lock.  `co_resume` is one step.
 */
module Mutex {
  import opened Common

  type Task = nat

  /** Where a task stands; the comment is the next thing it will do. */
  datatype Pc =
    | Idle                                        // outside every call, not the owner
    | Crit                                        // outside every call, the owner
    | TryCas                                      // co_mutex_try_lock: the CAS
    | Acquire                                     // co_mutex_lock: the CAS of the loop guard
    | WantWait                                    // task_wait_mutex: take wait_lock
    | Recheck                                     //   read the owner word again
    | BackOff                                     //   it was free: drop wait_lock and retry
    | Append                                      //   it was taken: append to wait_list
    | Leave                                       //   drop wait_lock
    | Parked                                      //   yielded, waiting for a resume
    | Release(cond: bool)                         // co_mutex_unlock: CAS owner -> free
    | WakeSpin(cond: bool)                        // mutex_wakeup_task: take wait_lock
    | WakeCheck(cond: bool)                       //   read the owner word
    | WakeSkip(cond: bool)                        //   someone barged in: drop wait_lock
    | WakePop(cond: bool)                         //   unlink the first waiter, if any
    | WakeUnspin(cond: bool, popped: Option<Task>) //  drop wait_lock
    | Wake(cond: bool, popped: Option<Task>)      //   resume the popped task, if any
    | CondParked                                  // co_cond_wait: yielded, then co_mutex_lock

  /** `cond` above: the unlock was made by co_cond_wait rather than by the user. */

  datatype State = State(
    owner: Option<Task>,       // the `lock` word: the owning task, or free
    spin: Option<Task>,        // holder of wait_lock
    waiters: seq<Task>,        // wait_list, oldest first
    condQueue: seq<Task>,      // wait_list of the condition variable, oldest first
    pc: seq<Pc>,               // one program counter per task
    panicked: bool)            // PANIC ends the process

  datatype Call = Lock | TryLock | Unlock | CondWait | CondSignal

  /** `Do` starts a call (or finishes one that is a single step), `Step` continues one. */
  datatype Action = Do(t: Task, call: Call) | Step(t: Task)

  function Init(n: nat): State {
    State(None, None, [], [], seq(n, _ => Idle), false)
  }

  // ---- classification of program points

  predicate HoldsMutex(p: Pc) { p.Crit? || p.Release? }

  predicate HoldsSpin(p: Pc) {
    p.Recheck? || p.BackOff? || p.Append? || p.Leave? ||
    p.WakeCheck? || p.WakeSkip? || p.WakePop? || p.WakeUnspin?
  }

  /** Inside co_mutex_lock and neither parked nor committed to parking. */
  predicate Locking(p: Pc) { p.Acquire? || p.WantWait? || p.Recheck? || p.BackOff? }

  /** Inside co_mutex_lock. */
  predicate Contends(p: Pc) { Locking(p) || p.Append? || p.Leave? || p.Parked? }

  /** Cleared the owner word and has not finished the wakeup check. */
  predicate OwesWakeup(p: Pc) { p.WakeSpin? || p.WakeCheck? || p.WakePop? }

  function Popped(p: Pc): Option<Task> {
    if p.WakeUnspin? || p.Wake? then p.popped else None
  }

  /** Inside co_cond_wait, before the re-acquire. */
  predicate InCondWait(p: Pc) {
    p.CondParked? ||
    ((p.Release? || p.WakeSpin? || p.WakeCheck? || p.WakeSkip? || p.WakePop? || p.WakeUnspin? || p.Wake?) && p.cond)
  }

  // ---- the transition system

  function At(s: State, t: Task, p: Pc): State
    requires t < |s.pc|
  {
    s.(pc := s.pc[t := p])
  }

  function AfterUnlock(cond: bool): Pc { if cond then CondParked else Idle }

  /** co_resume of a task parked on the mutex; a resume of any other task changes nothing here. */
  function Resume(s: State, u: Option<Task>): State {
    if u.Some? && u.value < |s.pc| && s.pc[u.value].Parked? then At(s, u.value, Acquire) else s
  }

  /** Entry of co_mutex_lock: the check against a recursive lock. */
  function EnterLock(s: State, t: Task): State
    requires t < |s.pc|
  {
    if s.owner == Some(t) then s.(panicked := true) else At(s, t, Acquire)
  }

  predicate CanStep(s: State, t: Task) {
    t < |s.pc| &&
    match s.pc[t]
    case Idle | Crit | Parked => false
    case WantWait | WakeSpin(_) => s.spin.None?
    case CondParked => t !in s.condQueue   // resumed by the signal that unlinked it
    case _ => true
  }

  function Advance(s: State, t: Task): State
    requires CanStep(s, t)
  {
    match s.pc[t]
    case TryCas => if s.owner.None? then At(s, t, Crit).(owner := Some(t)) else At(s, t, Idle)
    case Acquire => if s.owner.None? then At(s, t, Crit).(owner := Some(t)) else At(s, t, WantWait)
    case WantWait => At(s, t, Recheck).(spin := Some(t))
    case Recheck => At(s, t, if s.owner.None? then BackOff else Append)
    case BackOff => At(s, t, Acquire).(spin := None)
    case Append => At(s, t, Leave).(waiters := s.waiters + [t])
    case Leave => At(s, t, Parked).(spin := None)
    case Release(c) => At(s, t, WakeSpin(c)).(owner := if s.owner == Some(t) then None else s.owner)
    case WakeSpin(c) => At(s, t, WakeCheck(c)).(spin := Some(t))
    case WakeCheck(c) => At(s, t, if s.owner.Some? then WakeSkip(c) else WakePop(c))
    case WakeSkip(c) => At(s, t, AfterUnlock(c)).(spin := None)
    case WakePop(c) =>
      if s.waiters == [] then At(s, t, WakeUnspin(c, None))
      else At(s, t, WakeUnspin(c, Some(s.waiters[0]))).(waiters := s.waiters[1..])
    case WakeUnspin(c, u) => At(s, t, Wake(c, u)).(spin := None)
    case Wake(c, u) => Resume(At(s, t, AfterUnlock(c)), u)
    case CondParked => EnterLock(s, t)
  }

  predicate CanDo(s: State, t: Task, call: Call) {
    t < |s.pc| && (s.pc[t].Crit? || (s.pc[t].Idle? && !call.CondSignal?))
  }

  function Perform(s: State, t: Task, call: Call): State
    requires CanDo(s, t, call)
  {
    match call
    case Lock => EnterLock(s, t)
    case TryLock => if s.owner == Some(t) then s else At(s, t, TryCas)
    case Unlock => if s.owner != Some(t) then s.(panicked := true) else At(s, t, Release(false))
    case CondWait =>
      if s.owner != Some(t) then s.(panicked := true)
      else At(s, t, Release(true)).(condQueue := s.condQueue + [t])
    case CondSignal => if s.condQueue == [] then s else s.(condQueue := s.condQueue[1..])
  }

  predicate Enabled(s: State, a: Action) {
    !s.panicked &&
    match a
    case Do(t, call) => CanDo(s, t, call)
    case Step(t) => CanStep(s, t)
  }

  function Apply(s: State, a: Action): State
    requires Enabled(s, a)
  {
    match a
    case Do(t, call) => Perform(s, t, call)
    case Step(t) => Advance(s, t)
  }

  /** `acts` can be executed one after the other from `s`. */
  predicate Executable(s: State, acts: seq<Action>)
    decreases |acts|
  {
    acts == [] || (Enabled(s, acts[0]) && Executable(Apply(s, acts[0]), acts[1..]))
  }

  function Exec(s: State, acts: seq<Action>): State
    requires Executable(s, acts)
    decreases |acts|
  {
    if acts == [] then s else Exec(Apply(s, acts[0]), acts[1..])
  }

  // ---- the inductive invariant

  /** The tasks inside the critical section are exactly the one named by the owner word. */
  ghost predicate MutualExclusion(s: State) {
    && (s.owner.Some? ==> s.owner.value < |s.pc|)
    && forall t :: 0 <= t < |s.pc| ==> (HoldsMutex(s.pc[t]) <==> s.owner == Some(t))
  }

  ghost predicate SpinExclusion(s: State) {
    && (s.spin.Some? ==> s.spin.value < |s.pc|)
    && forall t :: 0 <= t < |s.pc| ==> (HoldsSpin(s.pc[t]) <==> s.spin == Some(t))
  }

  /** The wait list holds parked tasks (or one still about to drop wait_lock), each once. */
  ghost predicate WaitersOk(s: State) {
    && Distinct(s.waiters)
    && (forall t :: t in s.waiters ==> t < |s.pc| && (s.pc[t].Leave? || s.pc[t].Parked?))
    && (forall t :: 0 <= t < |s.pc| && s.pc[t].Leave? ==> t in s.waiters)
  }

  /** A popped task is parked, off the list, and in the hands of one waker only. */
  ghost predicate PoppedOk(s: State) {
    && (forall u :: 0 <= u < |s.pc| && Popped(s.pc[u]).Some? ==>
         var t := Popped(s.pc[u]).value;
         t < |s.pc| && s.pc[t].Parked? && t !in s.waiters)
    && (forall u, v :: 0 <= u < |s.pc| && 0 <= v < |s.pc| && u != v && Popped(s.pc[u]).Some? ==>
         Popped(s.pc[u]) != Popped(s.pc[v]))
  }

  ghost predicate InHandOf(s: State, t: Task, u: Task) {
    u < |s.pc| && Popped(s.pc[u]) == Some(t)
  }

  /** Every parked task is on the wait list or has been popped by a waker about to resume it. */
  ghost predicate ParkedOk(s: State) {
    forall t :: 0 <= t < |s.pc| && s.pc[t].Parked? ==> t in s.waiters || exists u :: InHandOf(s, t, u)
  }

  ghost predicate CondOk(s: State) {
    && Distinct(s.condQueue)
    && forall t :: t in s.condQueue ==> t < |s.pc| && InCondWait(s.pc[t])
  }

  /** Someone is on the wait list or has passed the recheck and is about to be. */
  ghost predicate Waiting(s: State) {
    s.waiters != [] || exists t :: 0 <= t < |s.pc| && s.pc[t].Append?
  }

  /** A task whose next steps will look at the mutex again on behalf of the waiters. */
  predicate Responsible(p: Pc) { OwesWakeup(p) || Locking(p) || Popped(p).Some? }

  ghost predicate NoLostWakeup(s: State) {
    Waiting(s) ==> s.owner.Some? || exists u :: 0 <= u < |s.pc| && Responsible(s.pc[u])
  }

  ghost predicate Inv(s: State) {
    MutualExclusion(s) && SpinExclusion(s) && WaitersOk(s) && PoppedOk(s) && ParkedOk(s) && CondOk(s) && NoLostWakeup(s)
  }

  // ---- every action keeps the invariant, one conjunct at a time

  /** An action changes the owner word on behalf of its own task only. */
  lemma OwnerChange(s: State, a: Action)
    requires Enabled(s, a) && (HoldsMutex(s.pc[a.t]) <==> s.owner == Some(a.t))
    ensures var s' := Apply(s, a);
            && (HoldsMutex(s'.pc[a.t]) <==> s'.owner == Some(a.t))
            && (s'.owner == s.owner || s'.owner == Some(a.t) || (s'.owner.None? && s.owner == Some(a.t)))
            && (s'.owner == Some(a.t) ==> s.owner.None? || s.owner == Some(a.t))
  {
    match a
    case Do(t, call) => assert Apply(s, a) == Perform(s, t, call);
    case Step(t) => assert Apply(s, a) == Advance(s, t);
  }

  lemma KeepsMutualExclusion(s: State, a: Action)
    requires MutualExclusion(s) && Enabled(s, a)
    ensures MutualExclusion(Apply(s, a))
  {
    var s' := Apply(s, a);
    OwnerChange(s, a);
    PcFrame(s, a, a.t);
    forall x | 0 <= x < |s'.pc| ensures HoldsMutex(s'.pc[x]) <==> s'.owner == Some(x) {
      PcFrame(s, a, x);
      assert HoldsMutex(s.pc[x]) <==> s.owner == Some(x);
    }
  }

  lemma SpinChange(s: State, a: Action)
    requires Enabled(s, a) && (HoldsSpin(s.pc[a.t]) <==> s.spin == Some(a.t))
    ensures var s' := Apply(s, a);
            && (HoldsSpin(s'.pc[a.t]) <==> s'.spin == Some(a.t))
            && (s'.spin == s.spin || s'.spin == Some(a.t) || (s'.spin.None? && s.spin == Some(a.t)))
            && (s'.spin == Some(a.t) ==> s.spin.None? || s.spin == Some(a.t))
  {}

  lemma KeepsSpinExclusion(s: State, a: Action)
    requires SpinExclusion(s) && Enabled(s, a)
    ensures SpinExclusion(Apply(s, a))
  {
    var s' := Apply(s, a);
    SpinChange(s, a);
    PcFrame(s, a, a.t);
    forall x | 0 <= x < |s'.pc| ensures HoldsSpin(s'.pc[x]) <==> s'.spin == Some(x) {
      PcFrame(s, a, x);
      assert HoldsSpin(s.pc[x]) <==> s.spin == Some(x);
    }
  }

  /** What one action can do to the wait list. */
  lemma WaitListChange(s: State, a: Action)
    requires Enabled(s, a)
    ensures var s' := Apply(s, a);
            || s'.waiters == s.waiters
            || (s'.waiters == s.waiters + [a.t] && s.pc[a.t].Append? && s'.pc == s.pc[a.t := Leave])
            || (s.waiters != [] && s'.waiters == s.waiters[1..] && s.pc[a.t].WakePop?)
  {}

  lemma KeepsWaiters(s: State, a: Action)
    requires SpinExclusion(s) && WaitersOk(s) && PoppedOk(s) && Enabled(s, a)
    ensures WaitersOk(Apply(s, a))
  {
    var s' := Apply(s, a);
    WaitListDistinct(s, a);
    forall x | x in s'.waiters
      ensures x < |s'.pc| && (s'.pc[x].Leave? || s'.pc[x].Parked?)
    {
      ListedWaits(s, a, x);
    }
    forall x | 0 <= x < |s'.pc| && s'.pc[x].Leave?
      ensures x in s'.waiters
    {
      LeaverListed(s, a, x);
    }
  }

  lemma WaitListDistinct(s: State, a: Action)
    requires WaitersOk(s) && Enabled(s, a)
    ensures Distinct(Apply(s, a).waiters)
  {
    WaitListChange(s, a);
    if s.pc[a.t].Append? { assert a.t !in s.waiters; }
  }

  lemma ListedWaits(s: State, a: Action, x: Task)
    requires WaitersOk(s) && PoppedOk(s) && Enabled(s, a) && x in Apply(s, a).waiters
    ensures var s' := Apply(s, a); x < |s'.pc| && (s'.pc[x].Leave? || s'.pc[x].Parked?)
  {
    WaitListChange(s, a);
    assert x in s.waiters || x == a.t;
    if x in s.waiters && x != a.t { StaysListed(s, a, x); }
  }

  lemma LeaverListed(s: State, a: Action, x: Task)
    requires SpinExclusion(s) && WaitersOk(s) && Enabled(s, a) && x < |Apply(s, a).pc| && Apply(s, a).pc[x].Leave?
    ensures x in Apply(s, a).waiters
  {
    WaitListChange(s, a);
    PcFrame(s, a, x);
    if x != a.t {
      assert HoldsSpin(s.pc[x]) <==> s.spin == Some(x);
      assert HoldsSpin(s.pc[a.t]) <==> s.spin == Some(a.t);
    }
  }

  lemma StaysListed(s: State, a: Action, x: Task)
    requires WaitersOk(s) && PoppedOk(s) && Enabled(s, a)
    requires x in s.waiters && x != a.t
    ensures Apply(s, a).pc[x] == s.pc[x]
  {
    PcFrame(s, a, x);
  }

  lemma KeepsPopped(s: State, a: Action)
    requires SpinExclusion(s) && WaitersOk(s) && PoppedOk(s) && Enabled(s, a)
    ensures PoppedOk(Apply(s, a))
  {
    var s' := Apply(s, a);
    PcFrame(s, a, a.t);
    forall u | 0 <= u < |s'.pc| && Popped(s'.pc[u]).Some?
      ensures var t := Popped(s'.pc[u]).value;
              t < |s'.pc| && s'.pc[t].Parked? && t !in s'.waiters
    {
      PoppedStays(s, a, u);
    }
    forall u, v | 0 <= u < |s'.pc| && 0 <= v < |s'.pc| && u != v && Popped(s'.pc[u]).Some?
      ensures Popped(s'.pc[u]) != Popped(s'.pc[v])
    {
      HandsApart(s, a, u, v);
    }
  }

  /** A task in a waker's hand was already there, or is the list head this action unlinked. */
  lemma InHandBefore(s: State, a: Action, u: Task)
    requires Enabled(s, a) && u < |s.pc| && u < |Apply(s, a).pc| && Popped(Apply(s, a).pc[u]).Some?
    ensures Popped(s.pc[u]) == Popped(Apply(s, a).pc[u]) ||
            (u == a.t && s.pc[u].WakePop? && s.waiters != [] && Popped(Apply(s, a).pc[u]) == Some(s.waiters[0]))
  {
    OthersOnlyResumed(s, a, u);
  }

  lemma HandsApart(s: State, a: Action, u: Task, v: Task)
    requires WaitersOk(s) && PoppedOk(s) && Enabled(s, a)
    requires u < |s.pc| && v < |s.pc| && u != v && |Apply(s, a).pc| == |s.pc| && Popped(Apply(s, a).pc[u]).Some?
    ensures Popped(Apply(s, a).pc[u]) != Popped(Apply(s, a).pc[v])
  {
    InHandBefore(s, a, u);
    if Popped(Apply(s, a).pc[v]).Some? {
      InHandBefore(s, a, v);
      if s.waiters != [] { assert s.waiters[0] in s.waiters; }
    }
  }

  lemma PoppedStays(s: State, a: Action, u: Task)
    requires SpinExclusion(s) && WaitersOk(s) && PoppedOk(s) && Enabled(s, a)
    requires u < |s.pc| && u < |Apply(s, a).pc| && Popped(Apply(s, a).pc[u]).Some?
    ensures var s' := Apply(s, a); var t := Popped(s'.pc[u]).value;
            t < |s'.pc| && s'.pc[t].Parked? && t !in s'.waiters
  {
    InHandBefore(s, a, u);
    if Popped(s.pc[u]) == Popped(Apply(s, a).pc[u]) { OldHandStays(s, a, u); } else { NewHandIsParked(s, u); }
  }

  lemma NewHandIsParked(s: State, u: Task)
    requires SpinExclusion(s) && WaitersOk(s) && u < |s.pc| && s.pc[u].WakePop? && s.waiters != []
    ensures forall a :: Enabled(s, a) && a.t == u && a.Step? ==>
              var s', h := Apply(s, a), s.waiters[0];
              h < |s'.pc| && s'.pc[h].Parked? && h !in s'.waiters
  {
    HeadIsParked(s, u);
  }

  lemma OldHandStays(s: State, a: Action, u: Task)
    requires WaitersOk(s) && PoppedOk(s) && Enabled(s, a)
    requires u < |s.pc| && u < |Apply(s, a).pc| && Popped(s.pc[u]).Some? && Popped(s.pc[u]) == Popped(Apply(s, a).pc[u])
    ensures var s' := Apply(s, a); var t := Popped(s'.pc[u]).value;
            t < |s'.pc| && s'.pc[t].Parked? && t !in s'.waiters
  {
    var t := Popped(s.pc[u]).value;
    WaitListChange(s, a);
    PcFrame(s, a, t);
    if s.pc[a.t].Wake? && s.pc[a.t].popped == Some(t) { HandChange(s, a); }
  }

  /** An action moves its own task; another task moves only when this action resumes it. */
  lemma PcFrame(s: State, a: Action, x: Task)
    requires Enabled(s, a) && x < |s.pc|
    ensures |Apply(s, a).pc| == |s.pc|
    ensures x != a.t ==>
      || Apply(s, a).pc[x] == s.pc[x]
      || (s.pc[a.t].Wake? && s.pc[a.t].popped == Some(x) && s.pc[x].Parked? && Apply(s, a).pc[x].Acquire?)
  {}

  /** What the mover has in hand changes only when it pops or resumes. */
  lemma HandChange(s: State, a: Action)
    requires Enabled(s, a)
    ensures |Apply(s, a).pc| == |s.pc|
    ensures !s.pc[a.t].WakePop? ==>
              Popped(Apply(s, a).pc[a.t]) == if s.pc[a.t].Wake? then None else Popped(s.pc[a.t])
  {}

  lemma OthersOnlyResumed(s: State, a: Action, x: Task)
    requires Enabled(s, a) && x < |s.pc|
    ensures |Apply(s, a).pc| == |s.pc|
    ensures x != a.t ==>
      || Apply(s, a).pc[x] == s.pc[x]
      || (s.pc[a.t].Wake? && s.pc[a.t].popped == Some(x) && s.pc[x].Parked? && Apply(s, a).pc[x].Acquire?)
    ensures !s.pc[x].Wake? && !s.pc[x].WakePop? ==> Popped(Apply(s, a).pc[x]) == Popped(s.pc[x])
    ensures s.pc[x].Wake? ==> Popped(Apply(s, a).pc[x]) == if x == a.t then None else Popped(s.pc[x])
  {
    PcFrame(s, a, x);
    HandChange(s, a);
  }

  /** The list head seen by a waker under wait_lock has really parked. */
  lemma HeadIsParked(s: State, u: Task)
    requires SpinExclusion(s) && WaitersOk(s)
    requires u < |s.pc| && s.pc[u].WakePop? && s.waiters != []
    ensures var h := s.waiters[0]; h < |s.pc| && h != u && s.pc[h].Parked? && h !in s.waiters[1..]
  {
    var h := s.waiters[0];
    assert h in s.waiters;
    assert HoldsSpin(s.pc[u]) && (s.pc[h].Leave? ==> HoldsSpin(s.pc[h]));
  }

  lemma KeepsParked(s: State, a: Action)
    requires WaitersOk(s) && PoppedOk(s) && ParkedOk(s) && Enabled(s, a)
    ensures ParkedOk(Apply(s, a))
  {
    var s' := Apply(s, a);
    forall x | 0 <= x < |s'.pc| && s'.pc[x].Parked?
      ensures x in s'.waiters || exists u :: InHandOf(s', x, u)
    {
      PcFrame(s, a, x);
      if x == a.t {
        JustParked(s, a);
      } else if x in s.waiters {
        ListedOrPopped(s, a, x);
      } else {
        var u :| InHandOf(s, x, u);
        StaysInHand(s, a, x, u);
      }
    }
  }

  lemma JustParked(s: State, a: Action)
    requires WaitersOk(s) && Enabled(s, a) && Apply(s, a).pc[a.t].Parked?
    ensures a.t in Apply(s, a).waiters
  {}

  lemma ListedOrPopped(s: State, a: Action, x: Task)
    requires Enabled(s, a) && x in s.waiters
    ensures x in Apply(s, a).waiters || InHandOf(Apply(s, a), x, a.t)
  {
    WaitListChange(s, a);
  }

  lemma StaysInHand(s: State, a: Action, x: Task, u: Task)
    requires Enabled(s, a) && InHandOf(s, x, u) && x < |s.pc| && s.pc[x].Parked? && Apply(s, a).pc[x].Parked?
    ensures InHandOf(Apply(s, a), x, u)
  {
    OthersOnlyResumed(s, a, u);
  }

  lemma KeepsCond(s: State, a: Action)
    requires MutualExclusion(s) && CondOk(s) && Enabled(s, a)
    ensures CondOk(Apply(s, a))
  {
    var s' := Apply(s, a);
    CondQueueChange(s, a);
    if s'.condQueue == s.condQueue + [a.t] { assert a.t !in s.condQueue; }
    forall x | x in s'.condQueue
      ensures x < |s'.pc| && InCondWait(s'.pc[x])
    {
      if x in s.condQueue { StaysInCondWait(s, a, x); }
    }
  }

  lemma CondQueueChange(s: State, a: Action)
    requires MutualExclusion(s) && Enabled(s, a)
    ensures var s' := Apply(s, a);
            || s'.condQueue == s.condQueue
            || (s'.condQueue == s.condQueue + [a.t] && !InCondWait(s.pc[a.t]) && InCondWait(s'.pc[a.t]))
            || (s.condQueue != [] && s'.condQueue == s.condQueue[1..])
  {
    assert HoldsMutex(s.pc[a.t]) <==> s.owner == Some(a.t);
  }

  /** A task leaves co_cond_wait only after it has been taken off the queue. */
  lemma StaysInCondWait(s: State, a: Action, x: Task)
    requires CondOk(s) && Enabled(s, a) && x in s.condQueue
    ensures x < |Apply(s, a).pc| && InCondWait(Apply(s, a).pc[x])
  {
    OthersOnlyResumed(s, a, x);
  }

  /** A waiting task is never forgotten: each action leaves a responsible task, or an owner. */
  lemma KeepsNoLostWakeup(s: State, a: Action)
    requires Inv(s) && Enabled(s, a)
    ensures NoLostWakeup(Apply(s, a))
  {
    var s' := Apply(s, a);
    if Waiting(s') && s'.owner.None? {
      OthersOnlyResumed(s, a, a.t);
      if s.owner.Some? {
        assert OwesWakeup(s'.pc[a.t]);
      } else {
        WaitingBefore(s, a);
        var u :| 0 <= u < |s.pc| && Responsible(s.pc[u]);
        OthersOnlyResumed(s, a, u);
        if u == a.t && !Responsible(s'.pc[u]) { HandsOver(s, a); }
      }
    }
  }

  /** While the mutex is free nobody starts waiting. */
  lemma WaitingBefore(s: State, a: Action)
    requires Enabled(s, a) && Waiting(Apply(s, a)) && s.owner.None?
    ensures Waiting(s)
  {
    var s' := Apply(s, a);
    WaitListChange(s, a);
    if s'.waiters == [] {
      var t :| 0 <= t < |s'.pc| && s'.pc[t].Append?;
      OthersOnlyResumed(s, a, t);
      assert s.pc[t].Append?;
    }
  }

  /** Nobody is about to append while a waker looks at the list: both would hold wait_lock. */
  lemma NoAppenderBeside(s: State, u: Task, t: Task)
    requires SpinExclusion(s) && u < |s.pc| && s.pc[u].WakePop? && t < |s.pc|
    ensures !s.pc[t].Append?
  {
    assert HoldsSpin(s.pc[u]) && (HoldsSpin(s.pc[t]) <==> s.spin == Some(t));
  }

  /** With the mutex free, only the resume of a popped task ends a responsibility. */
  lemma StaysResponsible(s: State, a: Action)
    requires Enabled(s, a) && s.owner.None? && Apply(s, a).owner.None? && Responsible(s.pc[a.t])
    ensures Responsible(Apply(s, a).pc[a.t]) || s.pc[a.t].Wake? || (s.pc[a.t].WakePop? && Apply(s, a).waiters == [])
  {}

  /** A responsible task that steps out of responsibility with the mutex free passes it on. */
  lemma HandsOver(s: State, a: Action)
    requires SpinExclusion(s) && PoppedOk(s) && Enabled(s, a) && s.owner.None? && Apply(s, a).owner.None?
    requires Waiting(Apply(s, a))
    requires Responsible(s.pc[a.t]) && !Responsible(Apply(s, a).pc[a.t])
    ensures exists u :: 0 <= u < |s.pc| && Responsible(Apply(s, a).pc[u])
  {
    var s' := Apply(s, a);
    StaysResponsible(s, a);
    if s.pc[a.t].Wake? {
      WakePc(s, a.t);
      assert Locking(s'.pc[s.pc[a.t].popped.value]);
    } else {
      forall t | 0 <= t < |s'.pc| ensures !s'.pc[t].Append? {
        PcFrame(s, a, t);
        NoAppenderBeside(s, a.t, t);
      }
    }
  }

  lemma KeepsInv(s: State, a: Action)
    requires Inv(s) && Enabled(s, a)
    ensures Inv(Apply(s, a))
  {
    KeepsMutualExclusion(s, a);
    KeepsSpinExclusion(s, a);
    KeepsWaiters(s, a);
    KeepsPopped(s, a);
    KeepsParked(s, a);
    KeepsCond(s, a);
    KeepsNoLostWakeup(s, a);
  }

  lemma {:induction false} RunKeepsInv(s: State, acts: seq<Action>)
    requires Inv(s) && Executable(s, acts)
    ensures Inv(Exec(s, acts)) && |Exec(s, acts).pc| == |s.pc|
    decreases |acts|
  {
    if acts != [] {
      KeepsInv(s, acts[0]);
      OthersOnlyResumed(s, acts[0], acts[0].t);
      RunKeepsInv(Apply(s, acts[0]), acts[1..]);
    }
  }

  // ---- main results, over every run of any number of tasks

  /**
   In every interleaving the tasks in the critical section are exactly the one the owner
   word names; a task that waits on the condition is outside it until it re-acquires.
   */
  lemma {:induction false} MutexExcludes(n: nat, acts: seq<Action>)
    requires Executable(Init(n), acts)
    ensures var s := Exec(Init(n), acts);
            && |s.pc| == n
            && (forall t :: 0 <= t < n ==> (HoldsMutex(s.pc[t]) <==> s.owner == Some(t)))
            && (forall t :: t in s.condQueue ==> t < n && !s.pc[t].Crit?)
  {
    RunKeepsInv(Init(n), acts);
  }

  /** No lost wakeup, as a property of every reachable state. */
  lemma {:induction false} WaitersAreNeverForgotten(n: nat, acts: seq<Action>)
    requires Executable(Init(n), acts)
    ensures var s := Exec(Init(n), acts);
            Waiting(s) && s.owner.None? ==>
              exists u :: 0 <= u < |s.pc| && (OwesWakeup(s.pc[u]) || Locking(s.pc[u]) || Popped(s.pc[u]).Some?)
  {
    RunKeepsInv(Init(n), acts);
  }

  lemma PanicsFrom(s: State, a: Action)
    requires MutualExclusion(s) && Enabled(s, a)
    ensures Apply(s, a).panicked <==>
              && a.Do?
              && if a.call.Lock? then s.pc[a.t].Crit? else (a.call.Unlock? || a.call.CondWait?) && s.pc[a.t].Idle?
  {
    assert HoldsMutex(s.pc[a.t]) <==> s.owner == Some(a.t);
  }

  /** The process panics exactly on a recursive lock, or an unlock or cond wait by a non-owner. */
  lemma {:induction false} PanicsExactlyOnMisuse(n: nat, acts: seq<Action>, a: Action)
    requires Executable(Init(n), acts) && Enabled(Exec(Init(n), acts), a)
    ensures var s := Exec(Init(n), acts);
            Apply(s, a).panicked <==>
              && a.Do?
              && if a.call.Lock? then s.pc[a.t].Crit? else (a.call.Unlock? || a.call.CondWait?) && s.pc[a.t].Idle?
  {
    RunKeepsInv(Init(n), acts);
    PanicsFrom(Exec(Init(n), acts), a);
  }

  // ---- a contended free mutex is always acquired

  /** An upper bound on the steps a task can still make while the mutex stays free. */
  function Weight(p: Pc): nat {
    match p
    case Idle | Crit | Parked => 0
    case TryCas | Acquire | Leave => 1
    case BackOff | Append | CondParked => 2
    case Recheck | WakeSkip(_) => 3
    case WantWait | Wake(_, _) => 4
    case WakeUnspin(_, _) => 5
    case WakePop(_) => 6
    case WakeCheck(_) => 7
    case WakeSpin(_) => 8
    case Release(_) => 9
  }

  function Rank(pc: seq<Pc>): nat { Sum(Weight, pc) }

  ghost predicate Contended(s: State) {
    exists t :: 0 <= t < |s.pc| && Contends(s.pc[t])
  }

  /** As long as a step leaves the mutex free, it lowers the rank and keeps the contention. */
  lemma FreeStepLowersRank(s: State, t: Task)
    requires Inv(s) && !s.panicked && CanStep(s, t) && s.owner.None? && Advance(s, t).owner.None?
    ensures Rank(Advance(s, t).pc) < Rank(s.pc)
    ensures Contended(s) ==> Contended(Advance(s, t))
    ensures !Advance(s, t).panicked
  {
    if s.pc[t].Wake? { WakeLowersRank(s, t); } else { FreeStepLowersWeight(s, t); }
    if Contended(s) { FreeStepKeepsContention(s, t); }
  }

  lemma FreeStepLowersWeight(s: State, t: Task)
    requires MutualExclusion(s) && !s.panicked && CanStep(s, t) && !s.pc[t].Wake?
    requires s.owner.None? && Advance(s, t).owner.None?
    ensures !Advance(s, t).panicked
    ensures Rank(Advance(s, t).pc) < Rank(s.pc)
  {
    assert HoldsMutex(s.pc[t]) <==> s.owner == Some(t);
    var p := Advance(s, t).pc[t];
    assert Weight(p) < Weight(s.pc[t]);
    assert Advance(s, t).pc == s.pc[t := p];
    SumUpdate(Weight, s.pc, t, p);
  }

  lemma WakePc(s: State, t: Task)
    requires PoppedOk(s) && CanStep(s, t) && s.pc[t].Wake?
    ensures var pc, u := s.pc[t := AfterUnlock(s.pc[t].cond)], s.pc[t].popped;
            && !(Advance(s, t).panicked && !s.panicked)
            && if u.None? then Advance(s, t).pc == pc
               else && u.value < |s.pc| && u.value != t && s.pc[u.value].Parked?
                    && Advance(s, t).pc == pc[u.value := Acquire]
  {
    assert Popped(s.pc[t]) == s.pc[t].popped;
  }

  /** A wakeup moves a second task, and pays for it. */
  lemma WakeLowersRank(s: State, t: Task)
    requires PoppedOk(s) && !s.panicked && CanStep(s, t) && s.pc[t].Wake?
    ensures !Advance(s, t).panicked
    ensures Rank(Advance(s, t).pc) < Rank(s.pc)
  {
    var p := AfterUnlock(s.pc[t].cond);
    SumUpdate(Weight, s.pc, t, p);
    WakePc(s, t);
    if Popped(s.pc[t]).Some? { SumUpdate(Weight, s.pc[t := p], s.pc[t].popped.value, Acquire); }
  }

  lemma FreeStepKeepsContention(s: State, t: Task)
    requires Contended(s) && !s.panicked && CanStep(s, t) && s.owner.None? && Advance(s, t).owner.None?
    ensures Contended(Advance(s, t))
  {
    var x: Task :| x < |s.pc| && Contends(s.pc[x]);
    OthersOnlyResumed(s, Step(t), x);
    assert Contends(Advance(s, t).pc[x]);
  }

  /** A contended free mutex has a task that can move. */
  lemma FreeMutexMoves(s: State)
    requires Inv(s) && s.owner.None? && Contended(s)
    ensures exists t :: CanStep(s, t)
  {
    var x: Task :| x < |s.pc| && Contends(s.pc[x]);
    var u: Task := x;
    if s.pc[x].Parked? && x !in s.waiters {
      u :| InHandOf(s, x, u);
    } else if !Locking(s.pc[x]) {
      assert Waiting(s);
      u :| u < |s.pc| && Responsible(s.pc[u]);
    }
    ResponsibleMoves(s, u);
  }

  /** A responsible task can move, unless wait_lock is taken; then its holder can. */
  lemma ResponsibleMoves(s: State, u: Task)
    requires SpinExclusion(s) && u < |s.pc| && Responsible(s.pc[u])
    ensures exists t :: CanStep(s, t)
  {
    if s.spin.Some? && (s.pc[u].WantWait? || s.pc[u].WakeSpin?) {
      assert HoldsSpin(s.pc[s.spin.value]);
      assert CanStep(s, s.spin.value);
    } else {
      assert CanStep(s, u);
    }
  }

  /** A run of steps, starting no new call, during which the mutex is free throughout. */
  ghost predicate StaysFree(s: State, acts: seq<Action>)
    decreases |acts|
  {
    s.owner.None? &&
    (acts == [] || (acts[0].Step? && Enabled(s, acts[0]) && StaysFree(Apply(s, acts[0]), acts[1..])))
  }

  lemma {:induction false} FreeRunEnds(s: State, acts: seq<Action>)
    requires Inv(s) && Contended(s) && StaysFree(s, acts)
    ensures Executable(s, acts) && |acts| + Rank(Exec(s, acts).pc) <= Rank(s.pc)
    ensures exists t :: CanStep(Exec(s, acts), t)
    decreases |acts|
  {
    if acts == [] {
      FreeMutexMoves(s);
    } else {
      FreeStepLowersRank(s, acts[0].t);
      KeepsInv(s, acts[0]);
      FreeRunEnds(Apply(s, acts[0]), acts[1..]);
    }
  }

  lemma RankBound(pc: seq<Pc>)
    ensures Rank(pc) <= 9 * |pc|
  {
    SumBound(Weight, pc, 9);
  }

  /**
   No wakeup is ever lost, in its strongest form.  From any reachable state in which the
   mutex is free and some task is inside co_mutex_lock, parked or not, the calls in
   progress cannot come to rest with the mutex still free: while it stays free a step is
   possible, and after at most nine steps per task it has been acquired, in whatever order
   the tasks move.
   */
  lemma {:induction false} ContendedMutexIsAcquired(n: nat, past: seq<Action>, acts: seq<Action>)
    requires Executable(Init(n), past)
    requires Contended(Exec(Init(n), past)) && StaysFree(Exec(Init(n), past), acts)
    ensures var s := Exec(Init(n), past);
            && Executable(s, acts)
            && |acts| <= 9 * n
            && exists t :: CanStep(Exec(s, acts), t)
  {
    RunKeepsInv(Init(n), past);
    FreeRunEnds(Exec(Init(n), past), acts);
    RankBound(Exec(Init(n), past).pc);
  }
}
