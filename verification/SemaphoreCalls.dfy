/**
 What each call of co_sem.c has done when it returns, over every interleaving, and when no
 call has to wait.
 */
module SemaphoreCalls {
  import opened Common
  import opened Semaphore

  /** `t` is inside its call in every state of the run but, perhaps, the last. */
  predicate StaysInside(s: State, t: Task, acts: seq<Action>)
    requires Executable(s, acts)
    decreases |acts|
  {
    t < |s.pc| &&
    (acts == [] || (!s.pc[t].Idle? && StaysInside(Apply(s, acts[0]), t, acts[1..])))
  }

  /** The run ends with the return of the call `t` is in. */
  predicate Returns(s: State, t: Task, acts: seq<Action>)
    requires Executable(s, acts)
  {
    StaysInside(s, t, acts) && t < |Exec(s, acts).pc| && Exec(s, acts).pc[t].Idle?
  }

  /** At its k-th own step, counted from zero, `t` finds the counter at `least` or above. */
  predicate Finds(s: State, t: Task, acts: seq<Action>, k: nat, least: int)
    requires Executable(s, acts)
    decreases |acts|
  {
    acts != [] &&
    if acts[0] != Step(t) then Finds(Apply(s, acts[0]), t, acts[1..], k, least)
    else if k == 0 then s.value >= least
    else Finds(Apply(s, acts[0]), t, acts[1..], k - 1, least)
  }

  function OwnSteps(t: Task, acts: seq<Action>): nat {
    if acts == [] then 0 else (if acts[0] == Step(t) then 1 else 0) + OwnSteps(t, acts[1..])
  }

  /** What the steps of `t` have added to the history: grants, decrements given back, and posts. */
  datatype Tally = Tally(grants: int, undos: int, posts: int)

  function Plus(a: Tally, b: Tally): Tally { Tally(a.grants + b.grants, a.undos + b.undos, a.posts + b.posts) }

  function Done(s: State, t: Task, a: Action): Tally
    requires Enabled(s, a)
  {
    var s' := Apply(s, a);
    if a == Step(t) then Tally(s'.granted - s.granted, s'.undone - s.undone, s'.posts - s.posts) else Tally(0, 0, 0)
  }

  function Deeds(s: State, t: Task, acts: seq<Action>): Tally
    requires Executable(s, acts)
    decreases |acts|
  {
    if acts == [] then Tally(0, 0, 0) else Plus(Done(s, t, acts[0]), Deeds(Apply(s, acts[0]), t, acts[1..]))
  }

  lemma {:induction false} EndsOutside(s: State, t: Task, acts: seq<Action>)
    requires Executable(s, acts) && StaysInside(s, t, acts) && s.pc[t].Idle?
    ensures acts == [] && Exec(s, acts) == s && Deeds(s, t, acts) == Tally(0, 0, 0)
  {}

  lemma {:induction false} ReturnsLater(s: State, t: Task, acts: seq<Action>)
    requires Executable(s, acts) && Returns(s, t, acts) && !s.pc[t].Idle?
    ensures acts != [] && Returns(Apply(s, acts[0]), t, acts[1..])
  {}

  /** The run without an action that is not one of `t`. */
  lemma {:induction false} OthersPass(s: State, t: Task, acts: seq<Action>)
    requires Executable(s, acts) && acts != [] && acts[0].t != t && t < |s.pc|
    ensures var s' := Apply(s, acts[0]);
            && t < |s'.pc| && (s'.pc[t] == s.pc[t] || (s.pc[t].Parked? && s'.pc[t].WaitDec?))
            && Deeds(s, t, acts) == Deeds(s', t, acts[1..])
  {
    PcFrame(s, acts[0], t);
  }

  // ---- co_sem_try_wait

  predicate Trying(p: Pc) { p.TryDec? || p.TrySpin? || p.TryCheck? || p.TryUndo? || p.TryLeave? }

  /** It decrements a positive counter, or finds it not negative when it looks again under wait_lock. */
  predicate Succeeds(s: State, t: Task, acts: seq<Action>)
    requires Executable(s, acts)
  {
    Finds(s, t, acts, 0, 1) || Finds(s, t, acts, 2, 0)
  }

  lemma {:induction false} TryMove(s: State, t: Task)
    requires Enabled(s, Step(t)) && Trying(s.pc[t])
    ensures var p, p', did := s.pc[t], Advance(s, t).pc[t], Done(s, t, Step(t));
            && (p.TryDec? ==>
                  if s.value > 0 then p'.Idle? && did == Tally(1, 0, 0) else p'.TrySpin? && did == Tally(0, 0, 0))
            && (p.TrySpin? ==> p'.TryCheck? && did == Tally(0, 0, 0))
            && (p.TryCheck? ==>
                  if s.value >= 0 then p'.TryLeave? && did == Tally(1, 0, 0) else p'.TryUndo? && did == Tally(0, 0, 0))
            && (p.TryUndo? ==> p'.TryLeave? && did == Tally(0, 1, 0))
            && (p.TryLeave? ==> p'.Idle? && did == Tally(0, 0, 0))
  {}

  lemma {:induction false} LeaveFrom(s: State, t: Task, acts: seq<Action>)
    requires t < |s.pc| && s.pc[t].TryLeave? && Executable(s, acts) && Returns(s, t, acts)
    ensures Deeds(s, t, acts) == Tally(0, 0, 0)
    decreases |acts|
  {
    ReturnsLater(s, t, acts);
    if acts[0].t != t {
      OthersPass(s, t, acts);
      LeaveFrom(Apply(s, acts[0]), t, acts[1..]);
    } else {
      TryMove(s, t);
      EndsOutside(Apply(s, acts[0]), t, acts[1..]);
    }
  }

  lemma {:induction false} UndoFrom(s: State, t: Task, acts: seq<Action>)
    requires t < |s.pc| && s.pc[t].TryUndo? && Executable(s, acts) && Returns(s, t, acts)
    ensures Deeds(s, t, acts) == Tally(0, 1, 0)
    decreases |acts|
  {
    ReturnsLater(s, t, acts);
    if acts[0].t != t {
      OthersPass(s, t, acts);
      UndoFrom(Apply(s, acts[0]), t, acts[1..]);
    } else {
      TryMove(s, t);
      LeaveFrom(Apply(s, acts[0]), t, acts[1..]);
    }
  }

  lemma {:induction false} CheckFrom(s: State, t: Task, acts: seq<Action>)
    requires t < |s.pc| && s.pc[t].TryCheck? && Executable(s, acts) && Returns(s, t, acts)
    ensures if Finds(s, t, acts, 0, 0) then Deeds(s, t, acts) == Tally(1, 0, 0) else Deeds(s, t, acts) == Tally(0, 1, 0)
    decreases |acts|
  {
    ReturnsLater(s, t, acts);
    var s' := Apply(s, acts[0]);
    if acts[0].t != t {
      OthersPass(s, t, acts);
      CheckFrom(s', t, acts[1..]);
    } else {
      TryMove(s, t);
      if s.value >= 0 { LeaveFrom(s', t, acts[1..]); } else { UndoFrom(s', t, acts[1..]); }
    }
  }

  lemma {:induction false} SpinFrom(s: State, t: Task, acts: seq<Action>)
    requires t < |s.pc| && s.pc[t].TrySpin? && Executable(s, acts) && Returns(s, t, acts)
    ensures if Finds(s, t, acts, 1, 0) then Deeds(s, t, acts) == Tally(1, 0, 0) else Deeds(s, t, acts) == Tally(0, 1, 0)
    decreases |acts|
  {
    ReturnsLater(s, t, acts);
    var s' := Apply(s, acts[0]);
    if acts[0].t != t {
      OthersPass(s, t, acts);
      SpinFrom(s', t, acts[1..]);
    } else {
      TryMove(s, t);
      CheckFrom(s', t, acts[1..]);
    }
  }

  lemma {:induction false} TryFrom(s: State, t: Task, acts: seq<Action>)
    requires t < |s.pc| && s.pc[t].TryDec? && Executable(s, acts) && Returns(s, t, acts)
    ensures if Succeeds(s, t, acts) then Deeds(s, t, acts) == Tally(1, 0, 0) else Deeds(s, t, acts) == Tally(0, 1, 0)
    decreases |acts|
  {
    ReturnsLater(s, t, acts);
    SucceedsLater(s, t, acts);
    var s' := Apply(s, acts[0]);
    if acts[0].t != t {
      OthersPass(s, t, acts);
      TryFrom(s', t, acts[1..]);
    } else {
      TryMove(s, t);
      if s.value > 0 { EndsOutside(s', t, acts[1..]); } else { SpinFrom(s', t, acts[1..]); }
    }
  }

  lemma {:induction false} SucceedsLater(s: State, t: Task, acts: seq<Action>)
    requires Executable(s, acts) && acts != []
    ensures var s' := Apply(s, acts[0]);
            Succeeds(s, t, acts) <==>
              if acts[0] == Step(t) then s.value > 0 || Finds(s', t, acts[1..], 1, 0) else Succeeds(s', t, acts[1..])
  {}

  // ---- own steps

  /** The steps a try-wait or a post can still make. */
  function Left(p: Pc): nat {
    if p.PostInc? then 6
    else if p.PostSpin? || p.TryDec? then 5
    else if p.PostCheck? || p.TrySpin? then 4
    else if p.PostPop? || p.TryCheck? then 3
    else if p.PostUnspin? || p.TryUndo? then 2
    else if p.PostWake? || p.TryLeave? then 1
    else 0
  }

  lemma {:induction false} StepSpends(s: State, t: Task)
    requires Enabled(s, Step(t)) && (Trying(s.pc[t]) || Posting(s.pc[t]))
    ensures var p' := Advance(s, t).pc[t];
            Left(p') < Left(s.pc[t]) && (p'.Idle? || Trying(p') || Posting(p'))
  {}

  lemma {:induction false} OwnStepsFrom(s: State, t: Task, acts: seq<Action>)
    requires t < |s.pc| && (s.pc[t].Idle? || Trying(s.pc[t]) || Posting(s.pc[t]))
    requires Executable(s, acts) && StaysInside(s, t, acts)
    ensures OwnSteps(t, acts) <= Left(s.pc[t])
    decreases |acts|
  {
    if acts != [] {
      if acts[0].t == t { StepSpends(s, t); } else { OthersPass(s, t, acts); }
      OwnStepsFrom(Apply(s, acts[0]), t, acts[1..]);
    }
  }

  /**
   A try-wait returns within five steps.  It succeeds exactly when it decrements a positive
   counter, or finds it not negative when it looks again under wait_lock; then it has been
   granted one, else it has given its decrement back.
   */
  lemma {:induction false} TryWaitOutcome(n: nat, count: nat, past: seq<Action>, t: Task, acts: seq<Action>)
    requires Executable(Init(n, count), past) && Enabled(Exec(Init(n, count), past), Do(t, TryWait))
    requires Executable(Apply(Exec(Init(n, count), past), Do(t, TryWait)), acts)
    requires Returns(Apply(Exec(Init(n, count), past), Do(t, TryWait)), t, acts)
    ensures var s := Apply(Exec(Init(n, count), past), Do(t, TryWait));
            && OwnSteps(t, acts) <= 5 && (Finds(s, t, acts, 0, 1) ==> OwnSteps(t, acts) == 1)
            && if Succeeds(s, t, acts) then Deeds(s, t, acts) == Tally(1, 0, 0) else Deeds(s, t, acts) == Tally(0, 1, 0)
  {
    var s := Apply(Exec(Init(n, count), past), Do(t, TryWait));
    OwnStepsFrom(s, t, acts);
    TryFrom(s, t, acts);
    if Finds(s, t, acts, 0, 1) { AtOnce(s, t, acts); }
  }

  // ---- co_sem_wait

  predicate WaitsOrDone(p: Pc) {
    p.WaitDec? || p.WaitSpin? || p.WaitCheck? || p.WaitAppend? || p.WaitUnspin? || p.Parked? || p.WaitLeave?
  }

  lemma {:induction false} WaitMove(s: State, t: Task)
    requires Enabled(s, Step(t)) && WaitsOrDone(s.pc[t])
    ensures var p, p', did := s.pc[t], Advance(s, t).pc[t], Done(s, t, Step(t));
            if p.WaitLeave? then p'.Idle? && did == Tally(0, 0, 0)
            else || ((p'.Idle? || p'.WaitLeave?) && did == Tally(1, 0, 0))
                 || (WaitsOrDone(p') && !p'.WaitLeave? && did == Tally(0, 0, 0))
  {}

  lemma {:induction false} WaitFrom(s: State, t: Task, acts: seq<Action>)
    requires t < |s.pc| && WaitsOrDone(s.pc[t]) && Executable(s, acts) && Returns(s, t, acts)
    ensures if s.pc[t].WaitLeave? then Deeds(s, t, acts) == Tally(0, 0, 0) else Deeds(s, t, acts) == Tally(1, 0, 0)
    decreases |acts|
  {
    ReturnsLater(s, t, acts);
    var s' := Apply(s, acts[0]);
    if acts[0].t != t {
      OthersPass(s, t, acts);
      WaitFrom(s', t, acts[1..]);
    } else {
      WaitMove(s, t);
      if s'.pc[t].Idle? { EndsOutside(s', t, acts[1..]); } else { WaitFrom(s', t, acts[1..]); }
    }
  }

  /** A wait or try-wait whose decrement finds the counter positive returns at that step. */
  lemma {:induction false} AtOnce(s: State, t: Task, acts: seq<Action>)
    requires t < |s.pc| && (s.pc[t].WaitDec? || s.pc[t].TryDec?) && Executable(s, acts) && Returns(s, t, acts)
    requires Finds(s, t, acts, 0, 1)
    ensures OwnSteps(t, acts) == 1
    decreases |acts|
  {
    ReturnsLater(s, t, acts);
    var s' := Apply(s, acts[0]);
    if acts[0].t != t {
      OthersPass(s, t, acts);
      AtOnce(s', t, acts[1..]);
    } else {
      EndsOutside(s', t, acts[1..]);
    }
  }

  /** A wait that returns has been granted one, and nothing was given back; at once if it found one left. */
  lemma {:induction false} WaitOutcome(n: nat, count: nat, past: seq<Action>, t: Task, acts: seq<Action>)
    requires Executable(Init(n, count), past) && Enabled(Exec(Init(n, count), past), Do(t, Wait))
    requires Executable(Apply(Exec(Init(n, count), past), Do(t, Wait)), acts)
    requires Returns(Apply(Exec(Init(n, count), past), Do(t, Wait)), t, acts)
    ensures var s := Apply(Exec(Init(n, count), past), Do(t, Wait));
            Deeds(s, t, acts) == Tally(1, 0, 0) && (Finds(s, t, acts, 0, 1) ==> OwnSteps(t, acts) == 1)
  {
    var s := Apply(Exec(Init(n, count), past), Do(t, Wait));
    WaitFrom(s, t, acts);
    if Finds(s, t, acts, 0, 1) { AtOnce(s, t, acts); }
  }

  // ---- co_sem_post

  predicate Posting(p: Pc) {
    p.PostInc? || p.PostSpin? || p.PostCheck? || p.PostPop? || p.PostUnspin? || p.PostWake?
  }

  lemma {:induction false} PostMove(s: State, t: Task)
    requires Enabled(s, Step(t)) && Posting(s.pc[t])
    ensures var p' := Advance(s, t).pc[t]; !p'.PostInc? && (p'.Idle? || Posting(p'))
    ensures if s.pc[t].PostInc? then Done(s, t, Step(t)) == Tally(0, 0, 1) else Done(s, t, Step(t)) == Tally(0, 0, 0)
  {}

  lemma {:induction false} PostFrom(s: State, t: Task, acts: seq<Action>)
    requires t < |s.pc| && Posting(s.pc[t]) && Executable(s, acts) && Returns(s, t, acts)
    ensures if s.pc[t].PostInc? then Deeds(s, t, acts) == Tally(0, 0, 1) else Deeds(s, t, acts) == Tally(0, 0, 0)
    decreases |acts|
  {
    ReturnsLater(s, t, acts);
    var s' := Apply(s, acts[0]);
    if acts[0].t != t {
      OthersPass(s, t, acts);
      PostFrom(s', t, acts[1..]);
    } else {
      PostMove(s, t);
      if s'.pc[t].Idle? { EndsOutside(s', t, acts[1..]); } else { PostFrom(s', t, acts[1..]); }
    }
  }

  /** A post returns within six steps, having incremented once. */
  lemma {:induction false} PostOutcome(n: nat, count: nat, past: seq<Action>, t: Task, acts: seq<Action>)
    requires Executable(Init(n, count), past) && Enabled(Exec(Init(n, count), past), Do(t, Post))
    requires Executable(Apply(Exec(Init(n, count), past), Do(t, Post)), acts)
    requires Returns(Apply(Exec(Init(n, count), past), Do(t, Post)), t, acts)
    ensures var s := Apply(Exec(Init(n, count), past), Do(t, Post));
            Deeds(s, t, acts) == Tally(0, 0, 1) && OwnSteps(t, acts) <= 6
  {
    var s := Apply(Exec(Init(n, count), past), Do(t, Post));
    OwnStepsFrom(s, t, acts);
    PostFrom(s, t, acts);
  }

  // ---- a task inside a call can move

  /** A task inside a call can move, unless another task holds wait_lock, which can, or it is parked. */
  lemma {:induction false} CallsMove(n: nat, count: nat, acts: seq<Action>, t: Task)
    requires Executable(Init(n, count), acts)
    requires t < |Exec(Init(n, count), acts).pc| && !Exec(Init(n, count), acts).pc[t].Idle?
    ensures var s := Exec(Init(n, count), acts);
            || Enabled(s, Step(t))
            || (s.spin.Some? && s.spin.value != t && Enabled(s, Step(s.spin.value)))
            || (s.pc[t].Parked? && (t in s.waiters || exists u :: InHandOf(s, t, u) && Enabled(s, Step(u))))
  {
    RunKeepsList(Init(n, count), acts);
    var s := Exec(Init(n, count), acts);
    if s.pc[t].Parked? {
      ParkedIsAccounted(s, t);
    } else if !HoldsSpin(s.pc[t]) && s.spin.Some? {
      SpinHolderMoves(s, t);
    }
  }

  lemma SpinHolderMoves(s: State, t: Task)
    requires SpinOk(s) && t < |s.pc| && !HoldsSpin(s.pc[t]) && s.spin.Some?
    ensures s.spin.value != t && Enabled(s, Step(s.spin.value))
  {
    assert HoldsSpin(s.pc[s.spin.value]);
  }

  lemma ParkedIsAccounted(s: State, t: Task)
    requires ParkedOk(s) && t < |s.pc| && s.pc[t].Parked?
    ensures t in s.waiters || exists u :: InHandOf(s, t, u) && Enabled(s, Step(u))
  {
    if t !in s.waiters {
      var u :| InHandOf(s, t, u);
      assert Enabled(s, Step(u));
    }
  }

  // ---- when no call has to wait

  /** The wait and try-wait calls made. */
  function Takes(acts: seq<Action>): nat {
    if acts == [] then 0 else Take(acts[0]) + Takes(acts[1..])
  }

  function Take(a: Action): nat { if a.Do? && !a.call.Post? then 1 else 0 }

  /** No wait or try-wait starts without a unit of its own, from the initial count or a post made. */
  predicate Provided(units: int, s: State, acts: seq<Action>)
    requires Executable(s, acts)
    decreases |acts|
  {
    acts == [] ||
    var s' := Apply(s, acts[0]);
    units >= Take(acts[0]) && Provided(units - Take(acts[0]) + (s'.posts - s.posts), s', acts[1..])
  }

  predicate Fresh(p: Pc) { p.Idle? || p.WaitDec? || p.TryDec? || p.PostInc? }

  function TakeWeight(p: Pc): nat { if p.WaitDec? || p.TryDec? then 1 else 0 }

  /** Nobody has blocked, and the counter holds the spare units and those of the calls about to take theirs. */
  ghost predicate Flows(units: int, s: State) {
    && units >= 0 && (forall t :: 0 <= t < |s.pc| ==> Fresh(s.pc[t]))
    && s.value == units + Sum(TakeWeight, s.pc)
    && s.undone == 0 && s.spent == 0 && s.waiters == []
  }

  lemma {:induction false} FlowStep(units: int, s: State, a: Action)
    requires Flows(units, s) && Enabled(s, a) && units >= Take(a)
    ensures var s' := Apply(s, a);
            && Flows(units - Take(a) + (s'.posts - s.posts), s')
            && s'.granted + Sum(TakeWeight, s'.pc) == s.granted + Sum(TakeWeight, s.pc) + Take(a)
  {
    assert Fresh(s.pc[a.t]);
    SumFromOne(s.pc, a.t);
    SumUpdate(TakeWeight, s.pc, a.t, Apply(s, a).pc[a.t]);
  }

  lemma {:induction false} SumFromOne(pc: seq<Pc>, t: Task)
    requires t < |pc|
    ensures Sum(TakeWeight, pc) >= TakeWeight(pc[t])
  {
    SumUpdate(TakeWeight, pc, t, Idle);
  }

  lemma {:induction false} FlowsFrom(units: int, s: State, acts: seq<Action>)
    requires Flows(units, s) && Executable(s, acts) && Provided(units, s, acts)
    ensures var s' := Exec(s, acts);
            && (forall t :: 0 <= t < |s'.pc| ==> Fresh(s'.pc[t])) && s'.waiters == [] && s'.undone == 0
            && s'.granted + Sum(TakeWeight, s'.pc) == s.granted + Sum(TakeWeight, s.pc) + Takes(acts)
    decreases |acts|
  {
    if acts != [] {
      FlowStep(units, s, acts[0]);
      FlowsFrom(units - Take(acts[0]) + (Apply(s, acts[0]).posts - s.posts), Apply(s, acts[0]), acts[1..]);
    }
  }

  /**
   If every wait and try-wait starts with a unit left for it, nobody blocks and nothing is
   given back; once all tasks are idle every one of these calls has been granted.
   */
  lemma {:induction false} EveryCallGrantedWhileUnitsLast(n: nat, count: nat, acts: seq<Action>)
    requires Executable(Init(n, count), acts) && Provided(count, Init(n, count), acts)
    ensures var s := Exec(Init(n, count), acts);
            && (forall t :: 0 <= t < |s.pc| ==> Fresh(s.pc[t])) && s.waiters == [] && s.undone == 0
            && ((forall t :: 0 <= t < |s.pc| ==> s.pc[t].Idle?) ==> s.granted == Takes(acts))
  {
    var s := Exec(Init(n, count), acts);
    SumZero(TakeWeight, Init(n, count).pc);
    FlowsFrom(count, Init(n, count), acts);
    if forall t :: 0 <= t < |s.pc| ==> s.pc[t].Idle? { SumZero(TakeWeight, s.pc); }
  }

  lemma {:induction false} FewIsProvided(units: int, s: State, acts: seq<Action>)
    requires Executable(s, acts) && Takes(acts) <= units
    ensures Provided(units, s, acts)
    decreases |acts|
  {
    if acts != [] {
      GrantsWhenNotNegative(s, acts[0]);
      FewIsProvided(units - Take(acts[0]) + (Apply(s, acts[0]).posts - s.posts), Apply(s, acts[0]), acts[1..]);
    }
  }

  /** In particular no call blocks in a run with no more waits and try-waits than the initial count. */
  lemma {:induction false} NobodyBlocksWithinTheCount(n: nat, count: nat, acts: seq<Action>)
    requires Executable(Init(n, count), acts) && Takes(acts) <= count
    ensures var s := Exec(Init(n, count), acts);
            && (forall t :: 0 <= t < |s.pc| ==> Fresh(s.pc[t])) && s.waiters == [] && s.undone == 0
            && ((forall t :: 0 <= t < |s.pc| ==> s.pc[t].Idle?) ==> s.granted == Takes(acts))
  {
    FewIsProvided(count, Init(n, count), acts);
    EveryCallGrantedWhileUnitsLast(n, count, acts);
  }
}
