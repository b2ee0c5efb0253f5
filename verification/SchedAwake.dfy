/**
 No task is lost by a scheduler thread: what has been resumed or signalled and has not stopped
 since runs or is queued, and comes round again within a bounded number of dispatches.
 */
module SchedAwake {
  import opened Common
  import opened SchedSpec

  /** The tasks resumed or signalled that have not stopped since, read off the actions. */
  function Awakened<T(==)>(awake: set<T>, s: State<T>, a: Action<T>): set<T>
    requires Possible(s, a)
  {
    match a
    case Resume(t) => awake + {t}
    case Signal(w) => awake + {s.lists[w][0]}
    case Stop => awake - {s.running.value}
    case _ => awake
  }

  function Awake<T(==)>(awake: set<T>, s: State<T>, acts: seq<Action<T>>): set<T>
    requires Executable(s, acts)
    decreases |acts|
  {
    if acts == [] then awake else Awake(Awakened(awake, s, acts[0]), Apply(s, acts[0]), acts[1..])
  }

  predicate Runnable<T(==)>(s: State<T>, t: T) {
    s.running == Some(t) || (s.lists != [] && t in s.lists[0])
  }

  /** An enqueue makes its task runnable and no other less or more so. */
  lemma EnqueueKeepsRunnable<T>(s: State<T>, t: T, x: T)
    requires s.lists != []
    ensures Runnable(Enqueued(s, t), x) <==> x == t || Runnable(s, x)
  {
    RemoveMember(s.lists[0], t, x);
  }

  lemma DispatchKeepsRunnable<T>(s: State<T>, x: T)
    requires Inv(s) && Enabled(s, Dispatch)
    ensures Runnable(Apply(s, Dispatch), x) <==> Runnable(s, x)
  {
    var n := |s.lists[0]| - 1;
    DispatchUnlists(s);
    assert s.lists[0] == s.lists[0][..n] + [s.lists[0][n]];
  }

  /** An action changes who is runnable as it changes who is awake. */
  lemma RunnableStep<T>(s: State<T>, a: Action<T>, x: T)
    requires Inv(s) && Enabled(s, a)
    ensures var s' := Apply(s, a);
            match a
            case Resume(t) => Runnable(s', x) <==> x == t || Runnable(s, x)
            case Signal(w) => Runnable(s', x) <==> x == s.lists[w][0] || Runnable(s, x)
            case Stop => Runnable(s, x) && s.running != Some(x) ==> Runnable(s', x)
            case _ => Runnable(s', x) <==> Runnable(s, x)
  {
    match a
    case Resume(t) => EnqueueKeepsRunnable(s, t, x);
    case Signal(w) => EnqueueKeepsRunnable(s, s.lists[w][0], x);
    case Dispatch => DispatchKeepsRunnable(s, x);
    case Link(w) =>
    case Stop =>
    case Yield => EnqueueKeepsRunnable(s.(running := None), s.running.value, x);
  }

  lemma {:induction false} AwakeStaysRunnable<T>(awake: set<T>, s: State<T>, acts: seq<Action<T>>, x: T)
    requires Inv(s) && Executable(s, acts) && (x in awake ==> Runnable(s, x))
    ensures x in Awake(awake, s, acts) ==> Runnable(Exec(s, acts), x)
    decreases |acts|
  {
    if acts != [] {
      KeepsInv(s, acts[0]);
      RunnableStep(s, acts[0], x);
      AwakeStaysRunnable(Awakened(awake, s, acts[0]), Apply(s, acts[0]), acts[1..], x);
    }
  }

  /** A task awake is running or on the run queue, and when queued on no other list. */
  lemma {:induction false} NobodyIsLost<T>(waitLists: nat, acts: seq<Action<T>>, t: T)
    requires Executable(Init<T>(waitLists), acts) && t in Awake({}, Init<T>(waitLists), acts)
    ensures var s := Exec(Init(waitLists), acts);
            && s.lists != [] && (s.running == Some(t) || t in s.lists[0])
            && (t in s.lists[0] ==> forall w :: 1 <= w < |s.lists| ==> t !in s.lists[w])
  {
    var s := Exec(Init(waitLists), acts);
    AwakeStaysRunnable({}, Init<T>(waitLists), acts, t);
    RunKeepsInv(Init<T>(waitLists), acts);
    forall w | 1 <= w < |s.lists| && t in s.lists[0] ensures t !in s.lists[w] {
      assert Apart(s.lists[0], s.lists[w]);
    }
  }

  lemma {:induction false} RunnableIsAwake<T>(awake: set<T>, s: State<T>, acts: seq<Action<T>>, x: T)
    requires Inv(s) && OffQueue(s) && Executable(s, acts) && NeverSelfResumed(s, acts)
    requires Runnable(s, x) ==> x in awake
    ensures Runnable(Exec(s, acts), x) ==> x in Awake(awake, s, acts)
    decreases |acts|
  {
    if acts != [] {
      KeepsInv(s, acts[0]);
      KeepsOffQueue(s, acts[0]);
      RunnableStep(s, acts[0], x);
      RunnableIsAwake(Awakened(awake, s, acts[0]), Apply(s, acts[0]), acts[1..], x);
    }
  }

  /** And if nobody resumes the running task, exactly the tasks awake are running or queued. */
  lemma {:induction false} AwakeExactlyWhenRunnable<T>(waitLists: nat, acts: seq<Action<T>>, t: T)
    requires Executable(Init<T>(waitLists), acts) && NeverSelfResumed(Init<T>(waitLists), acts)
    ensures t in Awake({}, Init<T>(waitLists), acts) <==> Runnable(Exec(Init<T>(waitLists), acts), t)
  {
    AwakeStaysRunnable({}, Init<T>(waitLists), acts, t);
    RunnableIsAwake({}, Init<T>(waitLists), acts, t);
  }

  // ---- waiting

  /** The wait list each task has linked itself to and has not been taken off since, read off the actions. */
  function WaitsAfter<T(==)>(waits: map<T, nat>, s: State<T>, a: Action<T>): map<T, nat>
    requires Possible(s, a)
  {
    match a
    case Resume(t) => waits - {t}
    case Signal(w) => waits - {s.lists[w][0]}
    case Link(w) => waits[s.running.value := w]
    case Yield => waits - {s.running.value}
    case _ => waits
  }

  function Waits<T(==)>(waits: map<T, nat>, s: State<T>, acts: seq<Action<T>>): map<T, nat>
    requires Executable(s, acts)
    decreases |acts|
  {
    if acts == [] then waits else Waits(WaitsAfter(waits, s, acts[0]), Apply(s, acts[0]), acts[1..])
  }

  predicate WaitsOn<T(==)>(s: State<T>, w: nat, t: T) { w < |s.lists| && t in s.lists[w] }

  lemma WaitStep<T>(waits: map<T, nat>, s: State<T>, a: Action<T>, w: nat, t: T)
    requires Inv(s) && Enabled(s, a) && 1 <= w < |s.lists| && (WaitsOn(s, w, t) <==> t in waits && waits[t] == w)
    ensures var waits' := WaitsAfter(waits, s, a);
            |Apply(s, a).lists| == |s.lists| && (WaitsOn(Apply(s, a), w, t) <==> t in waits' && waits'[t] == w)
  {
    match a
    case Resume(u) => RemoveMember(s.lists[w], u, t);
    case Signal(v) => RemoveMember(s.lists[w], s.lists[v][0], t);
    case Dispatch => DispatchUnlists(s);
    case Link(v) => assert t == s.running.value ==> t !in s.lists[w];
    case Stop =>
    case Yield => RemoveMember(s.lists[w], s.running.value, t);
  }

  lemma {:induction false} WaitsFrom<T>(waits: map<T, nat>, s: State<T>, acts: seq<Action<T>>, w: nat, t: T)
    requires Inv(s) && Executable(s, acts) && 1 <= w < |s.lists| && (WaitsOn(s, w, t) <==> t in waits && waits[t] == w)
    ensures WaitsOn(Exec(s, acts), w, t) <==> t in Waits(waits, s, acts) && Waits(waits, s, acts)[t] == w
    decreases |acts|
  {
    if acts != [] {
      KeepsInv(s, acts[0]);
      WaitStep(waits, s, acts[0], w, t);
      WaitsFrom(WaitsAfter(waits, s, acts[0]), Apply(s, acts[0]), acts[1..], w, t);
    }
  }

  /** A task is on a wait list exactly when that is where it linked itself and nothing has queued it since. */
  lemma {:induction false} WaitsUntilWoken<T>(waitLists: nat, acts: seq<Action<T>>, w: nat, t: T)
    requires Executable(Init<T>(waitLists), acts) && 1 <= w <= waitLists
    ensures var waits := Waits(map[], Init<T>(waitLists), acts);
            WaitsOn(Exec(Init<T>(waitLists), acts), w, t) <==> t in waits && waits[t] == w
  {
    WaitsFrom(map[], Init<T>(waitLists), acts, w, t);
  }

  // ---- coming round again

  /** An enqueued task has exactly the other queued tasks ahead of it, and runs once they have. */
  lemma {:induction false} EnqueuedComesRound<T>(s: State<T>, t: T, acts: seq<Action<T>>)
    requires Inv(s) && s.running != Some(t) && Executable(Enqueued(s, t), acts) && Resume(t) !in acts
    ensures Enqueued(s, t).lists[0] == [t] + Remove(s.lists[0], t)
    ensures Dispatches(acts) > |Remove(s.lists[0], t)| ==> Picked(Enqueued(s, t), acts, t)
  {
    EnqueueExcludes(s, t);
    RoundRobinBound(Enqueued(s, t), acts, t);
  }

  /**
   A task that yields loses the processor, is queued behind exactly the other tasks then
   queued, and runs again after at most as many other dispatches.
   */
  lemma {:induction false} YieldComesRound<T>(waitLists: nat, past: seq<Action<T>>, t: T, acts: seq<Action<T>>)
    requires Executable(Init<T>(waitLists), past) && Exec(Init<T>(waitLists), past).running == Some(t)
    requires Enabled(Exec(Init<T>(waitLists), past), Yield)
    requires Executable(Apply(Exec(Init<T>(waitLists), past), Yield), acts) && Resume(t) !in acts
    ensures var s := Exec(Init<T>(waitLists), past); var s' := Apply(s, Yield);
            && s'.running.None? && s'.lists[0] == [t] + Remove(s.lists[0], t)
            && (Dispatches(acts) > |s.lists[0]| ==> Picked(s', acts, t))
  {
    var s := Exec(Init<T>(waitLists), past).(running := None);
    RunKeepsInv(Init<T>(waitLists), past);
    SameLists(Exec(Init<T>(waitLists), past), s);
    RemoveShortens(s.lists[0], t);
    EnqueuedComesRound(s, t, acts);
  }

  /** Likewise a task resumed or signalled while another, or none, runs. */
  lemma {:induction false} WokenComesRound<T>(
      waitLists: nat, past: seq<Action<T>>, a: Action<T>, t: T, acts: seq<Action<T>>)
    requires Executable(Init<T>(waitLists), past) && Enabled(Exec(Init<T>(waitLists), past), a)
    requires var s := Exec(Init<T>(waitLists), past);
             s.running != Some(t) && (a == Resume(t) || (a.Signal? && s.lists[a.w][0] == t))
    requires Executable(Apply(Exec(Init<T>(waitLists), past), a), acts) && Resume(t) !in acts
    ensures var s := Exec(Init<T>(waitLists), past); var s' := Apply(s, a);
            && s'.running == s.running && s'.lists[0] == [t] + Remove(s.lists[0], t)
            && (Dispatches(acts) > |s.lists[0]| ==> Picked(s', acts, t))
  {
    var s := Exec(Init<T>(waitLists), past);
    RunKeepsInv(Init<T>(waitLists), past);
    RemoveShortens(s.lists[0], t);
    EnqueuedComesRound(s, t, acts);
  }

  // ---- a queued task can be brought to run

  /** k turns of other tasks that stop at once, and one more dispatch. */
  function Turns<T>(k: nat): seq<Action<T>> {
    if k == 0 then [Dispatch] else [Dispatch, Stop] + Turns(k - 1)
  }

  lemma {:induction false} AheadOfLast<T>(q: seq<T>, t: T)
    requires Distinct(q) && t in q
    ensures Ahead(q, t) == 0 <==> q[|q| - 1] == t
    decreases |q|
  {
    DistinctTail(q);
    if q[0] != t { AheadOfLast(q[1..], t); }
  }

  lemma {:induction false} TurnOf<T>(s: State<T>)
    requires Inv(s) && s.running.None? && s.lists[0] != []
    ensures var n := |s.lists[0]| - 1;
            && Enabled(s, Dispatch)
            && Apply(s, Dispatch).running == Some(s.lists[0][n])
            && Apply(s, Dispatch).lists == s.lists[0 := s.lists[0][..n]]
            && Enabled(Apply(s, Dispatch), Stop) && Inv(Apply(Apply(s, Dispatch), Stop))
  {
    DispatchUnlists(s);
    KeepsInv(s, Dispatch);
    KeepsInv(Apply(s, Dispatch), Stop);
  }

  /** While no task runs, a queued task with k ahead of it is the one running after k + 1 dispatches. */
  lemma {:induction false} QueuedTaskRuns<T>(s: State<T>, t: T)
    requires Inv(s) && s.running.None? && t in s.lists[0]
    ensures var turns := Turns<T>(Ahead(s.lists[0], t));
            Executable(s, turns) && Exec(s, turns).running == Some(t)
    decreases |s.lists[0]|
  {
    var q := s.lists[0];
    var k := Ahead(q, t);
    AheadOfLast(q, t);
    TurnOf(s);
    var s1 := Apply(s, Dispatch);
    if k == 0 {
      assert Turns<T>(0)[1..] == [];
    } else {
      AheadAfterPick(q, t);
      QueuedTaskRuns(Apply(s1, Stop), t);
      assert Turns<T>(k)[1..] == [Stop] + Turns(k - 1) && ([Stop] + Turns<T>(k - 1))[1..] == Turns(k - 1);
    }
  }

  /** In every reachable state without a running task, every task awake can be brought to run that way. */
  lemma {:induction false} AwakeTaskRuns<T>(waitLists: nat, acts: seq<Action<T>>, t: T)
    requires Executable(Init<T>(waitLists), acts) && t in Awake({}, Init<T>(waitLists), acts)
    requires Exec(Init<T>(waitLists), acts).running.None?
    ensures var s := Exec(Init<T>(waitLists), acts);
            && s.lists != [] && Executable(s, Turns<T>(Ahead(s.lists[0], t)))
            && Exec(s, Turns<T>(Ahead(s.lists[0], t))).running == Some(t)
  {
    RunKeepsInv(Init<T>(waitLists), acts);
    NobodyIsLost(waitLists, acts, t);
    QueuedTaskRuns(Exec(Init<T>(waitLists), acts), t);
  }
}
