/**
 Whole runs of a semaphore whose posts are all made at rest.  A task that has parked stays in
 its co_sem_wait for ever if at most one try-wait is in progress while a post is, and need not
 otherwise: try-waits that give their decrements back act like further posts.
 */
module SemaphoreStranding {
  import opened Common
  import opened Semaphore

  predicate Posting(p: Pc) {
    p.PostInc? || p.PostSpin? || p.PostCheck? || p.PostPop? || p.PostUnspin? || p.PostWake?
  }

  function Trying(p: Pc): nat {
    if p.TryDec? || p.TrySpin? || p.TryCheck? || p.TryUndo? || p.TryLeave? then 1 else 0
  }

  /** The try-waits in progress. */
  function TryCalls(s: State): nat { Sum(Trying, s.pc) }

  ghost predicate NobodyPosts(s: State) { forall u :: 0 <= u < |s.pc| ==> !Posting(s.pc[u]) }

  /** Posts begin at rest, and while one is in progress at most k try-waits are. */
  ghost predicate Orderly(k: nat, s: State, a: Action) {
    && (a.Do? && a.call.Post? ==> AtRest(s))
    && (a.Do? && a.call.TryWait? ==> NobodyPosts(s) || TryCalls(s) < k)
  }

  ghost predicate OrderlyRun(k: nat, s: State, acts: seq<Action>)
    decreases |acts|
  {
    acts == [] ||
    (Enabled(s, acts[0]) && Orderly(k, s, acts[0]) && OrderlyRun(k, Apply(s, acts[0]), acts[1..]))
  }

  lemma {:induction false} OrderlyIsExecutable(k: nat, s: State, acts: seq<Action>)
    requires OrderlyRun(k, s, acts)
    ensures Executable(s, acts)
    decreases |acts|
  {
    if acts != [] { OrderlyIsExecutable(k, Apply(s, acts[0]), acts[1..]); }
  }

  lemma {:induction false} OrderlyMonotone(k: nat, l: nat, s: State, acts: seq<Action>)
    requires k <= l && OrderlyRun(k, s, acts)
    ensures OrderlyRun(l, s, acts)
    decreases |acts|
  {
    if acts != [] { OrderlyMonotone(k, l, Apply(s, acts[0]), acts[1..]); }
  }

  // ---- one try-wait beside a post is harmless

  /** Past the pop with a task in hand, or about to pop. */
  predicate AboutToWake(p: Pc) { p.PostPop? || Popped(p).Some? }

  ghost predicate OnePost(s: State) {
    forall u, v :: 0 <= u < |s.pc| && 0 <= v < |s.pc| && Posting(s.pc[u]) && Posting(s.pc[v]) ==> u == v
  }

  /**
   One post at a time, at most one try-wait beside it, and when it is about to wake somebody
   the counter is zero at most, whatever the try-wait gives back.
   */
  ghost predicate Quiet(s: State) {
    && OnePost(s)
    && (!NobodyPosts(s) ==> TryCalls(s) <= 1)
    && (forall u :: 0 <= u < |s.pc| && AboutToWake(s.pc[u]) ==> s.value + Tries(s) <= 0)
  }

  lemma KindChange(s: State, a: Action, x: Task)
    requires Enabled(s, a) && x < |s.pc|
    ensures |Apply(s, a).pc| == |s.pc|
    ensures var p, p' := s.pc[x], Apply(s, a).pc[x];
            && (Posting(p') ==> Posting(p) || a == Do(x, Post))
            && (AboutToWake(p') ==> AboutToWake(p) || (a == Step(x) && p.PostCheck? && s.value < 0))
  {
    PcFrame(s, a, x);
  }

  /** Only the call itself adds a try-wait. */
  lemma TryCallsFollow(s: State, a: Action)
    requires Enabled(s, a)
    ensures TryCalls(Apply(s, a)) <= TryCalls(s) + if a.Do? && a.call.TryWait? then 1 else 0
  {
    SumFollows(Trying, s, a);
  }

  /** A try-wait gives back one decrement at most. */
  lemma {:induction false} TriesAreCalls(pc: seq<Pc>)
    ensures Sum(TryWeight, pc) <= Sum(Trying, pc)
    decreases |pc|
  {
    if pc != [] { TriesAreCalls(pc[..|pc| - 1]); }
  }

  lemma KeepsOnePost(s: State, a: Action)
    requires OnePost(s) && Enabled(s, a) && Orderly(1, s, a)
    ensures OnePost(Apply(s, a))
  {
    var s' := Apply(s, a);
    forall u, v | 0 <= u < |s'.pc| && 0 <= v < |s'.pc| && Posting(s'.pc[u]) && Posting(s'.pc[v]) ensures u == v {
      KindChange(s, a, u);
      KindChange(s, a, v);
    }
  }

  lemma KeepsFewTries(s: State, a: Action)
    requires (!NobodyPosts(s) ==> TryCalls(s) <= 1) && Enabled(s, a) && Orderly(1, s, a)
    ensures !NobodyPosts(Apply(s, a)) ==> TryCalls(Apply(s, a)) <= 1
  {
    var s' := Apply(s, a);
    TryCallsFollow(s, a);
    if !NobodyPosts(s') {
      var u: Task :| u < |s'.pc| && Posting(s'.pc[u]);
      KindChange(s, a, u);
      if a == Do(u, Post) { SumZero(Trying, s.pc); }
    }
  }

  lemma WakerSeesDebt(s: State, a: Action, u: Task)
    requires Quiet(s) && Enabled(s, a) && u < |s.pc| && u < |Apply(s, a).pc| && AboutToWake(Apply(s, a).pc[u])
    ensures Apply(s, a).value + Tries(Apply(s, a)) <= 0
  {
    KindChange(s, a, u);
    TriesFollow(s, a);
    assert Posting(s.pc[u]);
    if !AboutToWake(s.pc[u]) { TriesAreCalls(s.pc); }
  }

  lemma KeepsQuiet(s: State, a: Action)
    requires Quiet(s) && Enabled(s, a) && Orderly(1, s, a)
    ensures Quiet(Apply(s, a))
  {
    var s' := Apply(s, a);
    KeepsOnePost(s, a);
    KeepsFewTries(s, a);
    KindChange(s, a, a.t);
    forall u | 0 <= u < |s'.pc| && AboutToWake(s'.pc[u]) ensures s'.value + Tries(s') <= 0 {
      WakerSeesDebt(s, a, u);
    }
  }

  /**
   Task x is in its wait: parked, or resumed with no post in progress and a counter that does
   not recover before x has parked again, whatever the try-waits give back.
   */
  ghost predicate Stays(s: State, x: Task) {
    && x < |s.pc| && InWait(s.pc[x])
    && (!s.pc[x].Parked? ==> NobodyPosts(s))
    && (s.pc[x].WaitDec? ==> s.value + Tries(s) <= 0)
    && (s.pc[x].WaitSpin? || s.pc[x].WaitCheck? ==> s.value + Tries(s) < 0)
  }

  lemma KeepsStays(s: State, a: Action, x: Task)
    requires Quiet(s) && Stays(s, x) && Enabled(s, a) && Orderly(1, s, a)
    ensures Stays(Apply(s, a), x)
  {
    PcFrame(s, a, x);
    TriesFollow(s, a);
    if s.pc[x].Parked? {
      if !Apply(s, a).pc[x].Parked? { WakeKeepsStays(s, a, x); }
    } else {
      NobodyStartsPosting(s, a, x);
      if a == Step(x) && s.pc[x].WaitDec? { SumFollows(TryWeight, s, a); }
    }
  }

  lemma NobodyStartsPosting(s: State, a: Action, x: Task)
    requires x < |s.pc| && InWait(s.pc[x]) && !s.pc[x].Parked? && NobodyPosts(s)
    requires Enabled(s, a) && Orderly(1, s, a)
    ensures NobodyPosts(Apply(s, a)) && !(a.Step? && s.pc[a.t].PostInc?)
  {
    forall u | 0 <= u < |s.pc| ensures !Posting(Apply(s, a).pc[u]) { KindChange(s, a, u); }
    KindChange(s, a, a.t);
  }

  /** The one post in progress resumes x and ends, with the counter at zero or below. */
  lemma WakeKeepsStays(s: State, a: Action, x: Task)
    requires Quiet(s) && x < |s.pc| && s.pc[x].Parked?
    requires Enabled(s, a) && x < |Apply(s, a).pc| && !Apply(s, a).pc[x].Parked?
    ensures Apply(s, a).pc[x].WaitDec? && NobodyPosts(Apply(s, a)) && Apply(s, a).value + Tries(Apply(s, a)) <= 0
  {
    var s' := Apply(s, a);
    PcFrame(s, a, x);
    TriesFollow(s, a);
    assert Posting(s.pc[a.t]) && AboutToWake(s.pc[a.t]);
    forall u | 0 <= u < |s'.pc| ensures !Posting(s'.pc[u]) { KindChange(s, a, u); }
  }

  lemma {:induction false} RunKeepsQuiet(s: State, acts: seq<Action>)
    requires Quiet(s) && OrderlyRun(1, s, acts)
    ensures Executable(s, acts) && Quiet(Exec(s, acts))
    decreases |acts|
  {
    if acts != [] {
      KeepsQuiet(s, acts[0]);
      RunKeepsQuiet(Apply(s, acts[0]), acts[1..]);
    }
  }

  lemma {:induction false} RunKeepsStays(s: State, acts: seq<Action>, x: Task)
    requires Quiet(s) && Stays(s, x) && OrderlyRun(1, s, acts)
    ensures Executable(s, acts) && Stays(Exec(s, acts), x)
    decreases |acts|
  {
    if acts != [] {
      KeepsQuiet(s, acts[0]);
      KeepsStays(s, acts[0], x);
      RunKeepsStays(Apply(s, acts[0]), acts[1..], x);
    }
  }

  /** If task x is parked after an orderly run `past`, it is still in that wait after `acts`. */
  ghost predicate StaysInWait(k: nat, n: nat, count: nat, past: seq<Action>, acts: seq<Action>, x: Task) {
    OrderlyRun(k, Init(n, count), past) ==>
      (OrderlyIsExecutable(k, Init(n, count), past);
       var s := Exec(Init(n, count), past);
       x < |s.pc| && s.pc[x].Parked? && OrderlyRun(k, s, acts) ==>
         (OrderlyIsExecutable(k, s, acts);
          var s' := Exec(s, acts);
          x < |s'.pc| && InWait(s'.pc[x])))
  }

  lemma {:induction false} StaysBesideOneTry(
      k: nat, n: nat, count: nat, past: seq<Action>, acts: seq<Action>, x: Task)
    requires k <= 1
    ensures StaysInWait(k, n, count, past, acts, x)
  {
    if OrderlyRun(k, Init(n, count), past) {
      OrderlyMonotone(k, 1, Init(n, count), past);
      RunKeepsQuiet(Init(n, count), past);
      var s := Exec(Init(n, count), past);
      if x < |s.pc| && s.pc[x].Parked? && OrderlyRun(k, s, acts) {
        OrderlyMonotone(k, 1, s, acts);
        RunKeepsStays(s, acts, x);
      }
    }
  }

  // ---- two are not

  ghost predicate Reaches(s0: State, s: State) {
    exists acts :: OrderlyRun(2, s0, acts) && Executable(s0, acts) && Exec(s0, acts) == s
  }

  lemma Start(s0: State)
    ensures Reaches(s0, s0)
  {
    assert OrderlyRun(2, s0, []) && Executable(s0, []) && Exec(s0, []) == s0;
  }

  lemma {:induction false} OrderlySnoc(s: State, acts: seq<Action>, a: Action)
    requires OrderlyRun(2, s, acts) && Executable(s, acts)
    requires Enabled(Exec(s, acts), a) && Orderly(2, Exec(s, acts), a)
    ensures OrderlyRun(2, s, acts + [a]) && Executable(s, acts + [a]) && Exec(s, acts + [a]) == Apply(Exec(s, acts), a)
    decreases |acts|
  {
    if acts == [] {
      assert [a][1..] == [];
      assert Executable(Apply(s, a), []) && OrderlyRun(2, Apply(s, a), []);
    } else {
      assert (acts + [a])[1..] == acts[1..] + [a];
      OrderlySnoc(Apply(s, acts[0]), acts[1..], a);
    }
  }

  lemma Next(s0: State, s: State, a: Action, s': State)
    requires Reaches(s0, s) && Enabled(s, a) && Orderly(2, s, a) && Apply(s, a) == s'
    ensures Reaches(s0, s')
  {
    var acts :| OrderlyRun(2, s0, acts) && Executable(s0, acts) && Exec(s0, acts) == s;
    OrderlySnoc(s0, acts, a);
  }

  lemma Moves(s0: State, s: State, t: Task, s': State)
    requires Reaches(s0, s) && Enabled(s, Step(t)) && Advance(s, t) == s'
    ensures Reaches(s0, s')
  {
    Next(s0, s, Step(t), s');
  }

  /** Task 0 parks; a post at rest brings the counter to zero and wakes nobody. */
  function Stranded(): State { State(0, None, [0], [Parked, Idle, Idle, Idle], 1, 0, 1, 0, 1) }

  lemma StrandedIsReached()
    ensures Reaches(Init(4, 0), Stranded())
  {
    var s0 := Init(4, 0);
    var parked := State(-1, None, [0], [Parked, Idle, Idle, Idle], 0, 0, 1, 0, 1);
    ParkedIsReached();
    Next(s0, parked, Do(1, Post), parked.(pc := [Parked, PostInc, Idle, Idle]));
    Moves(s0, parked.(pc := [Parked, PostInc, Idle, Idle]), 1, Stranded());
  }

  lemma BlockIsReached()
    ensures Reaches(Init(4, 0), State(-1, None, [], [WaitSpin, Idle, Idle, Idle], 0, 0, 1, 0, 0))
  {
    var s0 := Init(4, 0);
    Start(s0);
    var s1 := State(0, None, [], [WaitDec, Idle, Idle, Idle], 0, 0, 0, 0, 0);
    Next(s0, s0, Do(0, Wait), s1);
    Moves(s0, s1, 0, State(-1, None, [], [WaitSpin, Idle, Idle, Idle], 0, 0, 1, 0, 0));
  }

  lemma AppendIsReached()
    ensures Reaches(Init(4, 0), State(-1, Some(0), [], [WaitAppend, Idle, Idle, Idle], 0, 0, 1, 0, 0))
  {
    var s0 := Init(4, 0);
    BlockIsReached();
    var s2 := State(-1, None, [], [WaitSpin, Idle, Idle, Idle], 0, 0, 1, 0, 0);
    var s3 := s2.(spin := Some(0), pc := [WaitCheck, Idle, Idle, Idle]);
    Moves(s0, s2, 0, s3);
    Moves(s0, s3, 0, s3.(pc := [WaitAppend, Idle, Idle, Idle]));
  }

  lemma ParkedIsReached()
    ensures Reaches(Init(4, 0), State(-1, None, [0], [Parked, Idle, Idle, Idle], 0, 0, 1, 0, 1))
  {
    var s0 := Init(4, 0);
    AppendIsReached();
    var s4 := State(-1, Some(0), [], [WaitAppend, Idle, Idle, Idle], 0, 0, 1, 0, 0);
    var s5 := s4.(waiters := [0], spent := 1, pc := [WaitUnspin, Idle, Idle, Idle]);
    Moves(s0, s4, 0, s5);
    Moves(s0, s5, 0, s5.(spin := None, pc := [Parked, Idle, Idle, Idle]));
  }

  /** At most one of four tasks is in a try-wait. */
  lemma FewTries(s: State, t: Task)
    requires |s.pc| == 4 && t <= 4 && forall u :: 0 <= u < 4 && u != t ==> Trying(s.pc[u]) == 0
    ensures TryCalls(s) <= if t < 4 then 1 else 0
  {
    if t < 4 {
      SumUpdate(Trying, s.pc, t, Idle);
      SumZero(Trying, s.pc[t := Idle]);
    } else {
      SumZero(Trying, s.pc);
    }
  }

  /** During the next post one try-wait decrements ... */
  lemma FirstOverlaps()
    ensures Reaches(Stranded(), State(-1, None, [0], [Parked, PostInc, TrySpin, Idle], 1, 0, 2, 0, 1))
  {
    var s0 := Stranded();
    Start(s0);
    var s1 := s0.(pc := [Parked, PostInc, Idle, Idle]);
    var s2 := s0.(pc := [Parked, PostInc, TryDec, Idle]);
    Next(s0, s0, Do(1, Post), s1);
    FewTries(s1, 4);
    Next(s0, s1, Do(2, TryWait), s2);
    Moves(s0, s2, 2, s0.(value := -1, decs := 2, pc := [Parked, PostInc, TrySpin, Idle]));
  }

  /** ... and another, so the post finds the counter negative and goes for the waiter. */
  lemma SecondOverlaps()
    ensures Reaches(Stranded(), State(-1, None, [0], [Parked, PostSpin, TrySpin, TrySpin], 2, 0, 3, 0, 1))
  {
    var s0 := Stranded();
    FirstOverlaps();
    var s3 := State(-1, None, [0], [Parked, PostInc, TrySpin, Idle], 1, 0, 2, 0, 1);
    var s4 := s3.(pc := [Parked, PostInc, TrySpin, TryDec]);
    var s5 := s4.(value := -2, decs := 3, pc := [Parked, PostInc, TrySpin, TrySpin]);
    FewTries(s3, 2);
    Next(s0, s3, Do(3, TryWait), s4);
    Moves(s0, s4, 3, s5);
    Moves(s0, s5, 1, s5.(value := -1, posts := 2, pc := [Parked, PostSpin, TrySpin, TrySpin]));
  }

  lemma WaiterPopped()
    ensures Reaches(Stranded(), State(-1, Some(1), [], [Parked, PostUnspin(Some(0)), TrySpin, TrySpin], 2, 0, 3, 0, 1))
  {
    var s0 := Stranded();
    SecondOverlaps();
    var s1 := State(-1, None, [0], [Parked, PostSpin, TrySpin, TrySpin], 2, 0, 3, 0, 1);
    var s2 := s1.(spin := Some(1), pc := [Parked, PostCheck, TrySpin, TrySpin]);
    var s3 := s2.(pc := [Parked, PostPop, TrySpin, TrySpin]);
    Moves(s0, s1, 1, s2);
    Moves(s0, s2, 1, s3);
    Moves(s0, s3, 1, s3.(waiters := [], pc := [Parked, PostUnspin(Some(0)), TrySpin, TrySpin]));
  }

  /** It resumes the waiter ... */
  lemma WaiterResumed()
    ensures Reaches(Stranded(), State(-1, None, [], [WaitDec, Idle, TrySpin, TrySpin], 2, 0, 3, 0, 1))
  {
    var s0 := Stranded();
    WaiterPopped();
    var s4 := State(-1, Some(1), [], [Parked, PostUnspin(Some(0)), TrySpin, TrySpin], 2, 0, 3, 0, 1);
    var s5 := s4.(spin := None, pc := [Parked, PostWake(Some(0)), TrySpin, TrySpin]);
    var s6 := s5.(pc := [WaitDec, Idle, TrySpin, TrySpin]);
    Moves(s0, s4, 1, s5);
    assert Advance(s5, 1).pc == s6.pc;
    Moves(s0, s5, 1, s6);
  }

  /** ... which decrements. */
  lemma WaiterWoken()
    ensures Reaches(Stranded(), State(-2, None, [], [WaitSpin, Idle, TrySpin, TrySpin], 2, 0, 4, 0, 1))
  {
    var s0 := Stranded();
    WaiterResumed();
    var s6 := State(-1, None, [], [WaitDec, Idle, TrySpin, TrySpin], 2, 0, 3, 0, 1);
    Moves(s0, s6, 0, s6.(value := -2, decs := 4, pc := [WaitSpin, Idle, TrySpin, TrySpin]));
  }

  /** The first try-wait fails and gives its decrement back ... */
  lemma FirstUndone()
    ensures Reaches(Stranded(), State(-1, None, [], [WaitSpin, Idle, Idle, TrySpin], 2, 0, 4, 1, 1))
  {
    var s0 := Stranded();
    WaiterWoken();
    var s1 := State(-2, None, [], [WaitSpin, Idle, TrySpin, TrySpin], 2, 0, 4, 0, 1);
    var s2 := s1.(spin := Some(2), pc := [WaitSpin, Idle, TryCheck, TrySpin]);
    var s3 := s2.(pc := [WaitSpin, Idle, TryUndo, TrySpin]);
    var s4 := s3.(value := -1, undone := 1, pc := [WaitSpin, Idle, TryLeave, TrySpin]);
    Moves(s0, s1, 2, s2);
    Moves(s0, s2, 2, s3);
    Moves(s0, s3, 2, s4);
    Moves(s0, s4, 2, s4.(spin := None, pc := [WaitSpin, Idle, Idle, TrySpin]));
  }

  /** ... and so does the second, which brings the counter to zero. */
  lemma SecondUndone()
    ensures Reaches(Stranded(), State(0, None, [], [WaitSpin, Idle, Idle, Idle], 2, 0, 4, 2, 1))
  {
    var s0 := Stranded();
    FirstUndone();
    var s1 := State(-1, None, [], [WaitSpin, Idle, Idle, TrySpin], 2, 0, 4, 1, 1);
    var s2 := s1.(spin := Some(3), pc := [WaitSpin, Idle, Idle, TryCheck]);
    var s3 := s2.(pc := [WaitSpin, Idle, Idle, TryUndo]);
    var s4 := s3.(value := 0, undone := 2, pc := [WaitSpin, Idle, Idle, TryLeave]);
    Moves(s0, s1, 3, s2);
    Moves(s0, s2, 3, s3);
    Moves(s0, s3, 3, s4);
    Moves(s0, s4, 3, s4.(spin := None, pc := [WaitSpin, Idle, Idle, Idle]));
  }

  /** The waiter now finds the counter recovered ... */
  lemma WaiterChecks()
    ensures Reaches(Stranded(), State(0, Some(0), [], [WaitLeave, Idle, Idle, Idle], 2, 1, 4, 2, 1))
  {
    var s0 := Stranded();
    SecondUndone();
    var s1 := State(0, None, [], [WaitSpin, Idle, Idle, Idle], 2, 0, 4, 2, 1);
    var s2 := s1.(spin := Some(0), pc := [WaitCheck, Idle, Idle, Idle]);
    Moves(s0, s1, 0, s2);
    Moves(s0, s2, 0, s2.(granted := 1, pc := [WaitLeave, Idle, Idle, Idle]));
  }

  /** ... and returns. */
  lemma WaiterReturns()
    ensures Reaches(Stranded(), State(0, None, [], [Idle, Idle, Idle, Idle], 2, 1, 4, 2, 1))
  {
    var s3 := State(0, Some(0), [], [WaitLeave, Idle, Idle, Idle], 2, 1, 4, 2, 1);
    WaiterChecks();
    Moves(Stranded(), s3, 0, State(0, None, [], [Idle, Idle, Idle, Idle], 2, 1, 4, 2, 1));
  }

  /**
   With all posts made at rest, every task that ever parks stays in its wait for ever in every
   run, if and only if at most one try-wait may be in progress while a post is.
   */
  lemma {:induction false} ParkedForEverExactlyUpToOneTry(k: nat)
    ensures (forall n: nat, count: nat, past: seq<Action>, acts: seq<Action>, x: Task ::
               StaysInWait(k, n, count, past, acts, x)) <==> k <= 1
  {
    if k <= 1 {
      forall n: nat, count: nat, past: seq<Action>, acts: seq<Action>, x: Task
        ensures StaysInWait(k, n, count, past, acts, x)
      {
        StaysBesideOneTry(k, n, count, past, acts, x);
      }
    } else {
      var past, acts := TwoTriesFreeTheWaiter(k);
    }
  }

  lemma {:induction false} TwoTriesFreeTheWaiter(k: nat) returns (past: seq<Action>, acts: seq<Action>)
    requires k >= 2
    ensures !StaysInWait(k, 4, 0, past, acts, 0)
  {
    StrandedIsReached();
    WaiterReturns();
    past :| OrderlyRun(2, Init(4, 0), past) && Executable(Init(4, 0), past) && Exec(Init(4, 0), past) == Stranded();
    var last := State(0, None, [], [Idle, Idle, Idle, Idle], 2, 1, 4, 2, 1);
    acts :| OrderlyRun(2, Stranded(), acts) && Executable(Stranded(), acts) && Exec(Stranded(), acts) == last;
    OrderlyMonotone(2, k, Init(4, 0), past);
    OrderlyMonotone(2, k, Stranded(), acts);
  }
}
