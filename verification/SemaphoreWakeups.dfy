/**
 What a co_sem_post does for the tasks parked on a semaphore.  A waiter that is resumed
 decrements again, so a post made while nothing else moves lets nobody through: it changes
 the counter, or turns the list by one place.
 */
module SemaphoreWakeups {
  import opened Common
  import opened Semaphore

  // ---- a post made at rest

  /** The state k steps into a post that task t makes in the rest state s. */
  function Stage(s: State, t: Task, k: nat): State
    requires t < |s.pc| && (s.waiters != [] ==> s.waiters[0] < |s.pc|)
  {
    var up := s.(value := s.value + 1, posts := s.posts + 1);
    var oldest := if s.waiters == [] then None else Some(s.waiters[0]);
    var out := up.(waiters := if s.waiters == [] then [] else s.waiters[1..]);
    if k == 0 then At(s, t, PostInc)
    else if s.value >= -1 then up
    else if k == 1 then At(up, t, PostSpin)
    else if k == 2 then At(up, t, PostCheck).(spin := Some(t))
    else if k == 3 then At(up, t, PostPop).(spin := Some(t))
    else if k == 4 then At(out, t, PostUnspin(oldest)).(spin := Some(t))
    else if k == 5 then At(out, t, PostWake(oldest))
    else if oldest.None? then up
    else if k == 6 then At(out, oldest.value, WaitDec)
    else Reparked(s, out, oldest.value, k)
  }

  /** The resumed waiter decrements the counter to where it was, and parks again. */
  function Reparked(s: State, out: State, w: Task, k: nat): State
    requires w < |out.pc|
  {
    var down := out.(value := out.value - 1, decs := out.decs + 1);
    if k == 7 then At(down, w, WaitSpin)
    else if k == 8 then At(down, w, WaitCheck).(spin := Some(w))
    else if k == 9 then At(down, w, WaitAppend).(spin := Some(w))
    else if k == 10 then At(down, w, WaitUnspin).(spin := Some(w), waiters := out.waiters + [w], spent := out.spent + 1)
    else At(down, w, Parked).(waiters := out.waiters + [w], spent := out.spent + 1)
  }

  function LastStage(s: State): nat {
    if s.value >= -1 then 1 else if s.waiters == [] then 6 else 11
  }

  /** The one task that is in a call at stage k. */
  function Mover(s: State, t: Task, k: nat): Task {
    if k <= 5 || s.waiters == [] then t else s.waiters[0]
  }

  lemma OthersRest(s: State, t: Task, k: nat, x: Task)
    requires AtRest(s) && t < |s.pc| && s.pc[t].Idle? && k <= LastStage(s) && x < |s.pc|
    requires s.waiters != [] ==> s.waiters[0] < |s.pc| && s.pc[s.waiters[0]].Parked?
    requires x != Mover(s, t, k) || k == LastStage(s)
    ensures |Stage(s, t, k).pc| == |s.pc| && (Stage(s, t, k).pc[x].Idle? || Stage(s, t, k).pc[x].Parked?)
  {
    assert s.pc[x].Idle? || s.pc[x].Parked?;
  }

  /** At every stage but the last exactly one task can move, and it leads to the next stage. */
  lemma StageMoves(s: State, t: Task, k: nat, x: Task)
    requires AtRest(s) && t < |s.pc| && s.pc[t].Idle? && k <= LastStage(s)
    requires s.waiters != [] ==> s.waiters[0] < |s.pc| && s.pc[s.waiters[0]].Parked? && s.waiters[0] != t
    ensures Enabled(Stage(s, t, k), Step(x)) <==> x == Mover(s, t, k) && k < LastStage(s)
    ensures Enabled(Stage(s, t, k), Step(x)) ==> Apply(Stage(s, t, k), Step(x)) == Stage(s, t, k + 1)
  {
    if x < |s.pc| && (x != Mover(s, t, k) || k == LastStage(s)) {
      OthersRest(s, t, k, x);
    } else if x < |s.pc| {
      if k <= 5 { PosterMoves(s, t, k); } else { WaiterMoves(s, t, k); }
    }
  }

  lemma PosterMoves(s: State, t: Task, k: nat)
    requires AtRest(s) && t < |s.pc| && s.pc[t].Idle? && k <= 5 && k < LastStage(s)
    requires s.waiters != [] ==> s.waiters[0] < |s.pc| && s.pc[s.waiters[0]].Parked? && s.waiters[0] != t
    ensures Enabled(Stage(s, t, k), Step(t)) && Apply(Stage(s, t, k), Step(t)) == Stage(s, t, k + 1)
  {
    if k <= 2 { PosterChecks(s, t, k); } else { PosterPops(s, t, k); }
  }

  lemma PosterChecks(s: State, t: Task, k: nat)
    requires t < |s.pc| && s.pc[t].Idle? && s.spin.None? && k <= 2 && k < LastStage(s)
    requires s.waiters != [] ==> s.waiters[0] < |s.pc|
    ensures Enabled(Stage(s, t, k), Step(t)) && Apply(Stage(s, t, k), Step(t)) == Stage(s, t, k + 1)
  {
    assert Apply(Stage(s, t, k), Step(t)).pc == Stage(s, t, k + 1).pc;
  }

  lemma PosterPops(s: State, t: Task, k: nat)
    requires t < |s.pc| && s.pc[t].Idle? && s.spin.None? && 3 <= k <= 5 && k < LastStage(s)
    requires s.waiters != [] ==> s.waiters[0] < |s.pc| && s.pc[s.waiters[0]].Parked? && s.waiters[0] != t
    ensures Enabled(Stage(s, t, k), Step(t)) && Apply(Stage(s, t, k), Step(t)) == Stage(s, t, k + 1)
  {
    assert Apply(Stage(s, t, k), Step(t)).pc == Stage(s, t, k + 1).pc;
  }

  lemma WaiterMoves(s: State, t: Task, k: nat)
    requires AtRest(s) && t < |s.pc| && s.waiters != [] && 6 <= k < LastStage(s)
    requires s.waiters[0] < |s.pc| && s.pc[s.waiters[0]].Parked?
    ensures Enabled(Stage(s, t, k), Step(s.waiters[0]))
    ensures Apply(Stage(s, t, k), Step(s.waiters[0])) == Stage(s, t, k + 1)
  {
    var c, n := Stage(s, t, k), Stage(s, t, k + 1);
    assert Apply(c, Step(s.waiters[0])).pc == n.pc;
  }

  lemma {:induction false} StageRun(s: State, t: Task, k: nat, acts: seq<Action>)
    requires AtRest(s) && t < |s.pc| && s.pc[t].Idle? && k <= LastStage(s)
    requires s.waiters != [] ==> s.waiters[0] < |s.pc| && s.pc[s.waiters[0]].Parked? && s.waiters[0] != t
    requires Executable(Stage(s, t, k), acts) && forall i :: 0 <= i < |acts| ==> acts[i].Step?
    ensures k + |acts| <= LastStage(s) && Exec(Stage(s, t, k), acts) == Stage(s, t, k + |acts|)
    decreases |acts|
  {
    if acts != [] {
      assert acts[0] == Step(acts[0].t);
      StageMoves(s, t, k, acts[0].t);
      StageRun(s, t, k + 1, acts[1..]);
    }
  }

  /** What is left when the post and whatever it set in motion have come to rest. */
  function AfterPost(s: State): State {
    if s.value < -1 && s.waiters != [] then
      s.(posts := s.posts + 1, decs := s.decs + 1, spent := s.spent + 1, waiters := s.waiters[1..] + [s.waiters[0]])
    else s.(posts := s.posts + 1, value := s.value + 1)
  }

  lemma LastStageIsAfterPost(s: State, t: Task)
    requires AtRest(s) && t < |s.pc| && s.pc[t].Idle?
    requires s.waiters != [] ==> s.waiters[0] < |s.pc| && s.pc[s.waiters[0]].Parked?
    ensures Stage(s, t, LastStage(s)) == AfterPost(s)
  {
    assert Stage(s, t, LastStage(s)).pc == s.pc;
  }

  /**
   A post made at rest lets nobody through.  Whatever order the tasks move in, after one, six
   or eleven steps everything rests again, with the same tasks parked and no call granted: if
   the counter was below minus one the oldest waiter has gone to the end of the list and the
   counter is as before, otherwise only the counter has gone up.
   */
  lemma {:induction false} PostAtRestLetsNobodyThrough(s: State, t: Task, acts: seq<Action>)
    requires AtRest(s) && t < |s.pc| && s.pc[t].Idle?
    requires Executable(Apply(s, Do(t, Post)), acts) && forall i :: 0 <= i < |acts| ==> acts[i].Step?
    ensures var s' := Exec(Apply(s, Do(t, Post)), acts);
            && |acts| <= LastStage(s) && s'.granted == s.granted
            && ((forall x :: !Enabled(s', Step(x))) <==> |acts| == LastStage(s))
            && (|acts| == LastStage(s) ==> s' == AfterPost(s) && s'.pc == s.pc)
  {
    if s.waiters != [] { assert s.waiters[0] in s.waiters; }
    StageRun(s, t, 0, acts);
    LastStageIsAfterPost(s, t);
    var s' := Stage(s, t, |acts|);
    forall x: Task ensures Enabled(s', Step(x)) <==> x == Mover(s, t, |acts|) && |acts| < LastStage(s) {
      StageMoves(s, t, |acts|, x);
    }
    assert |acts| < LastStage(s) ==> Enabled(s', Step(Mover(s, t, |acts|)));
  }

  /** The state left is one of rest again, so the next post finds the same situation. */
  lemma AfterPostIsAtRest(s: State)
    requires AtRest(s)
    ensures AtRest(AfterPost(s))
  {
    if s.value < -1 && s.waiters != [] {
      var q := s.waiters;
      DistinctTail(q);
      DistinctSnoc(q[1..], q[0]);
    }
  }

  // ---- a concrete run

  lemma {:induction false} ExecSnoc(s: State, acts: seq<Action>, a: Action)
    requires Executable(s, acts) && Enabled(Exec(s, acts), a)
    ensures Executable(s, acts + [a]) && Exec(s, acts + [a]) == Apply(Exec(s, acts), a)
    decreases |acts|
  {
    if acts == [] {
      assert [a][1..] == [];
    } else {
      assert (acts + [a])[1..] == acts[1..] + [a];
      ExecSnoc(Apply(s, acts[0]), acts[1..], a);
    }
  }

  lemma Then(s: State, acts: seq<Action>, a: Action, s': State) returns (longer: seq<Action>)
    requires Executable(s, acts) && Enabled(Exec(s, acts), a) && Apply(Exec(s, acts), a) == s'
    ensures Executable(s, longer) && Exec(s, longer) == s'
  {
    ExecSnoc(s, acts, a);
    longer := acts + [a];
  }

  lemma WaitOnEmptyBlocks() returns (acts: seq<Action>)
    ensures Executable(Init(2, 0), acts)
    ensures Exec(Init(2, 0), acts) == State(-1, Some(0), [], [WaitCheck, Idle], 0, 0, 1, 0, 0)
  {
    var s0 := Init(2, 0);
    acts := Then(s0, [], Do(0, Wait), State(0, None, [], [WaitDec, Idle], 0, 0, 0, 0, 0));
    acts := Then(s0, acts, Step(0), State(-1, None, [], [WaitSpin, Idle], 0, 0, 1, 0, 0));
    acts := Then(s0, acts, Step(0), State(-1, Some(0), [], [WaitCheck, Idle], 0, 0, 1, 0, 0));
  }

  lemma WaitOnEmptyParks() returns (acts: seq<Action>)
    ensures Executable(Init(2, 0), acts)
    ensures Exec(Init(2, 0), acts) == State(-1, None, [0], [Parked, Idle], 0, 0, 1, 0, 1)
  {
    var s0 := Init(2, 0);
    acts := WaitOnEmptyBlocks();
    acts := Then(s0, acts, Step(0), State(-1, Some(0), [], [WaitAppend, Idle], 0, 0, 1, 0, 0));
    acts := Then(s0, acts, Step(0), State(-1, Some(0), [0], [WaitUnspin, Idle], 0, 0, 1, 0, 1));
    acts := Then(s0, acts, Step(0), State(-1, None, [0], [Parked, Idle], 0, 0, 1, 0, 1));
  }

  /** A wait on an empty semaphore and then a post: the counter is zero, the waiter parked, and nothing moves. */
  lemma {:induction false} WaitThenPostStrands() returns (acts: seq<Action>)
    ensures Executable(Init(2, 0), acts)
    ensures var s := Exec(Init(2, 0), acts);
            s.posts == 1 && s.granted == 0 && s.value == 0 && s.waiters == [0] && s.pc == [Parked, Idle]
    ensures forall t :: !Enabled(Exec(Init(2, 0), acts), Step(t))
  {
    var s0 := Init(2, 0);
    acts := WaitOnEmptyParks();
    acts := Then(s0, acts, Do(1, Post), State(-1, None, [0], [Parked, PostInc], 0, 0, 1, 0, 1));
    acts := Then(s0, acts, Step(1), State(0, None, [0], [Parked, Idle], 1, 0, 1, 0, 1));
  }
}
