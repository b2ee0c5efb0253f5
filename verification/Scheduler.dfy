/**
 The scheduler thread in place: sched_RR.c, the loop body of schedule() and the list work of
 the blocking primitives.  Every task is represented by its `run_link`.  Each method is one
 step of SchedSpec, performed on the rings of Rings.
 */
module Scheduler {
  import opened Common
  import opened Links
  import opened Rings
  import S = SchedSpec

  class Scheduler {
    const heads: seq<Node>       // 0: run_list; the others: wait_lists
    const tasks: set<Node>       // the run_links
    var running: Option<Node>
    var taskNum: int
    ghost var lists: seq<seq<Node>>
    ghost var enqueues: nat
    ghost var dequeues: nat

    ghost function State(): S.State<Node>
      reads this
    {
      S.State(lists, running, enqueues, dequeues)
    }

    ghost predicate Valid()
      reads this, heads, tasks
    {
      && Family(heads, lists, tasks)
      && S.Inv(State()) && taskNum == enqueues - dequeues
      && (running.Some? ==> running.value in tasks)
    }

    /** RR_init and list_init have left every head and every link a ring of its own. */
    constructor (heads: seq<Node>, tasks: set<Node>)
      requires heads != [] && Distinct(heads) && forall w :: 0 <= w < |heads| ==> heads[w] !in tasks
      requires forall w :: 0 <= w < |heads| ==> Cycle([heads[w]])
      requires forall t :: t in tasks ==> Alone(t)
      ensures Valid() && State() == S.Init(|heads| - 1) && this.heads == heads && this.tasks == tasks
    {
      this.heads, this.tasks := heads, tasks;
      running, taskNum := None, 0;
      lists := S.Init<Node>(|heads| - 1).lists;
      enqueues, dequeues := 0, 0;
      new;
      EmptyFamily(heads, lists, tasks);
    }

    /** RR_enqueue, reached through co_resume: unlink from wherever it is, link into the run queue. */
    method Enqueue(t: Node)
      requires Valid() && t in tasks
      modifies this`lists, this`taskNum, this`enqueues, heads, tasks
      ensures Valid() && State() == S.Enqueued(old(State()), t)
      ensures lists[0] == [t] + Remove(old(lists[0]), t)
    {
      ghost var s := State();
      S.EnqueueExcludes(s, t);
      Move(heads[0], t, heads, lists, tasks, 0);
      lists := S.Requeued(lists, t);
      taskNum := taskNum + 1;
      enqueues := enqueues + 1;
      assert State() == S.Enqueued(s, t);
    }

    /** The tail of the run queue as RR_picknext reads it, NULL-free only when the queue is not empty. */
    method Oldest() returns (t: Option<Node>)
      requires Valid()
      ensures t == S.Tail(State())
    {
      Unfold(heads, lists, tasks);
      assert IsRing(heads, lists, tasks, 0);
      FirstInCycle(heads[0], lists[0]);
      var ls := heads[0].prev;
      EmptyExactlyWhenAlone(Ring(heads, lists, 0), |lists[0]|);
      t := if IsEmpty(ls) then None else Some(ls);
    }

    /** RR_dequeue: it unlinks the task wherever it is. */
    method Dequeue(t: Node)
      requires Valid() && t in tasks
      modifies this`lists, this`taskNum, this`dequeues, heads, tasks
      ensures Valid() && State() == S.Dequeued(old(State()), t)
    {
      Unlink(t);
      taskNum := taskNum - 1;
      dequeues := dequeues + 1;
    }

    /** One turn of schedule(): pick, dequeue, and switch to the task. */
    method Dispatch() returns (t: Node)
      requires Valid() && running.None? && lists[0] != []
      modifies this, heads, tasks
      ensures Valid() && State() == S.Apply(old(State()), S.Dispatch)
      ensures running == Some(t) && old(lists[0]) == lists[0] + [t]
    {
      S.DispatchTakesOldest(State());
      var picked := Oldest();
      t := picked.value;
      OnList(heads, lists, tasks, 0, |lists[0]| - 1);
      Dequeue(t);
      running := Some(t);
    }

    /** list_add_before on a wait list by the running task, which runs on. */
    method Link(w: nat)
      requires Valid() && 1 <= w < |heads| && running.Some? && S.Unlinked(State(), running.value)
      modifies this`lists, heads, tasks
      ensures Valid() && State() == S.Apply(old(State()), S.Link(w))
    {
      S.LinkKeeps(State(), w);
      assert Free(lists, running.value);
      Add(false, heads[w], running.value, heads, lists, tasks, w);
      lists := lists[w := lists[w] + [running.value]];
    }

    /** The running task gives up the processor, whatever its link is on. */
    method Stop()
      requires Valid() && running.Some?
      modifies this`running
      ensures Valid() && State() == S.Apply(old(State()), S.Stop)
    {
      running := None;
    }

    /** co_cond_wait up to its yield, in the order of the source. */
    method CondWait(c: nat, m: nat)
      requires Valid() && 1 <= c < |heads| && 1 <= m < |heads| && c != m
      requires running.Some? && S.Unlinked(State(), running.value)
      modifies this`lists, this`running, this`taskNum, this`enqueues, heads, tasks
      ensures Valid() && State() == S.CondWaited(old(State()), c, m)
      ensures running.None? && lists == S.HandedOver(old(lists), c, m, old(running).value)
    {
      S.CondWaitHandsOver(State(), c, m);
      Link(c);
      Signal(m, false);
      Stop();
    }

    /** A task that yields runnable is enqueued again by schedule(). */
    method Yield()
      requires Valid() && running.Some?
      modifies this`running, this`lists, this`taskNum, this`enqueues, heads, tasks
      ensures Valid() && State() == S.Apply(old(State()), S.Yield)
      ensures running.None? && lists[0] == [old(running).value] + Remove(old(lists[0]), old(running).value)
    {
      var prev := running.value;
      running := None;
      Enqueue(prev);
    }

    /** list_delete of a task's link. */
    method Unlink(t: Node)
      requires Valid() && t in tasks
      modifies this`lists, heads, tasks
      ensures Valid() && State() == old(State()).(lists := Unlisted(old(lists), t))
    {
      S.UnlistKeeps(State(), t);
      Detach(t, heads, lists, tasks);
      lists := Unlisted(lists, t);
    }

    /** One round of the loop of _co_cond_signal_all: unlink the waiter and co_resume it. */
    method WakeFirst(w: nat, t: Node)
      requires Valid() && 1 <= w < |heads| && lists[w] != [] && t == lists[w][0]
      modifies this`lists, this`taskNum, this`enqueues, heads, tasks
      ensures Valid() && State() == S.Apply(old(State()), S.Signal(w))
    {
      OnList(heads, lists, tasks, w, 0);
      S.UnlistKeeps(State(), t);
      Unlink(t);
      Enqueue(t);
    }

    /** _co_cond_signal_all: the loop also serves mutex_wakeup_task and co_sem_post, with `all` false. */
    method Signal(w: nat, all: bool)
      requires Valid() && 1 <= w < |heads|
      modifies this`lists, this`taskNum, this`enqueues, heads, tasks
      ensures Valid()
      ensures State() == if all then S.Broadcast(old(State()), w)
                         else if old(lists[w]) == [] then old(State()) else S.Apply(old(State()), S.Signal(w))
    {
      FirstOf(heads, lists, tasks, w);
      var ls := heads[w].next;
      ghost var s := State();
      while !IsEmpty(ls)
        invariant Valid() && running == s.running
        invariant ls == heads[w].next && (IsEmpty(ls) <==> lists[w] == [])
        invariant if all then S.Broadcast(State(), w) == S.Broadcast(s, w) else State() == s
        decreases |lists[w]|
      {
        FirstOf(heads, lists, tasks, w);
        var t := ls;
        ls := ls.next;
        S.SignalWakesItsOldest(State(), w);
        WakeFirst(w, t);
        FirstOf(heads, lists, tasks, w);
        if !all { break; }
      }
    }

    /** The nodes are links of tasks. */
    ghost predicate Known(ts: seq<Node>) {
      forall i :: 0 <= i < |ts| ==> ts[i] in tasks
    }

    /** event_wait: every task with an event is resumed. */
    method Poll(ts: seq<Node>)
      requires Valid() && running.None? && Known(ts)
      modifies this`lists, this`taskNum, this`enqueues, heads, tasks
      ensures Valid() && State() == S.ResumeAll(old(State()), ts)
    {
      ghost var s := State();
      for i := 0 to |ts|
        invariant Valid() && State() == S.ResumeAll(s, ts[..i])
      {
        S.ResumeOneMore(s, ts, i);
        Enqueue(ts[i]);
      }
      assert ts[..|ts|] == ts;
    }

    /** One round of RR_picknext. */
    method PollOnce(ts: seq<Node>) returns (t: Option<Node>)
      requires Valid() && running.None? && Known(ts)
      modifies this`lists, this`taskNum, this`enqueues, heads, tasks
      ensures Valid() && State() == S.ResumeAll(old(State()), ts) && t == S.Tail(State())
    {
      Poll(ts);
      t := Oldest();
    }

    /**
     RR_picknext: poll, then look at the tail of the queue, until it has a task.  `events`
     are the resumes of the successive polls; running out of them stands for blocking.
     */
    method PickNext(events: seq<seq<Node>>) returns (t: Option<Node>, ghost trace: seq<S.State<Node>>)
      requires Valid() && running.None? && events != []
      requires forall i :: 0 <= i < |events| ==> Known(events[i])
      modifies this`lists, this`taskNum, this`enqueues, heads, tasks
      ensures Valid() && S.PolledFrom(old(State()), trace, events, State()) && |trace| >= 2
      ensures t == S.Tail(State()) && (t.None? ==> |trace| == |events| + 1)
    {
      ghost var s := State();
      trace := [s];
      t := PollOnce(events[0]);
      S.PolledSnoc(s, trace, events, s, State());
      trace := trace + [State()];
      var used := 1;
      while t.None? && used < |events|
        invariant Valid() && running.None? && used <= |events| && |trace| == used + 1
        invariant S.PolledFrom(s, trace, events, State()) && t == S.Tail(State())
      {
        ghost var before := State();
        t := PollOnce(events[used]);
        S.PolledSnoc(s, trace, events, before, State());
        trace := trace + [State()];
        used := used + 1;
      }
    }
  }
}
