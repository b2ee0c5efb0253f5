/**
 One scheduler thread of task_sched.c and sched_RR.c, as a state machine over the lists the
 `run_link`s of its tasks are on.  List 0 is the run queue, newest enqueued first; the others
 are the wait lists of mutexes, condition variables and semaphores, oldest waiter first.
 */
module SchedSpec {
  import opened Common

  /** `enqueues` and `dequeues` count the calls; their difference is the source's task_num. */
  datatype State<T> = State(lists: seq<seq<T>>, running: Option<T>, enqueues: nat, dequeues: nat)

  datatype Action<T> =
    | Resume(t: T)          // co_resume: by an event, a timeout or another task
    | Signal(w: nat)        // unlink the oldest waiter of list w and co_resume it
    | Dispatch              // picknext and dequeue: the oldest entry of the run queue starts running
    | Link(w: nat)          // the running task appends its free link to list w, and runs on
    | Stop                  // the running task yields blocked, on a list or not, or exits
    | Yield                 // the running task yields runnable and is enqueued again

  /** RR_enqueue: unlink, then link in behind the queue head. */
  function Requeued<T(==)>(lists: seq<seq<T>>, t: T): seq<seq<T>>
    requires lists != []
  {
    var ls := Unlisted(lists, t);
    ls[0 := [t] + ls[0]]
  }

  function Enqueued<T(==)>(s: State<T>, t: T): State<T>
    requires s.lists != []
  {
    s.(lists := Requeued(s.lists, t), enqueues := s.enqueues + 1)
  }

  /** RR_dequeue of any task. */
  function Dequeued<T(==)>(s: State<T>, t: T): State<T> {
    s.(lists := Unlisted(s.lists, t), dequeues := s.dequeues + 1)
  }

  /** The link is on no list. */
  predicate Unlinked<T(==)>(s: State<T>, t: T) {
    forall w :: 0 <= w < |s.lists| ==> t !in s.lists[w]
  }

  /** What the source itself asks for. */
  predicate Possible<T(==)>(s: State<T>, a: Action<T>) {
    s.lists != [] &&
    match a
    case Resume(t) => true
    case Signal(w) => 1 <= w < |s.lists| && s.lists[w] != []
    case Dispatch => s.running.None? && s.lists[0] != []
    case Link(w) => 1 <= w < |s.lists| && s.running.Some?
    case Stop => s.running.Some?
    case Yield => s.running.Some?
  }

  /** list_add_before also needs a link that is on no list, which it does not check. */
  predicate Enabled<T(==)>(s: State<T>, a: Action<T>) {
    Possible(s, a) && (a.Link? ==> Unlinked(s, s.running.value))
  }

  function Apply<T(==)>(s: State<T>, a: Action<T>): State<T>
    requires Possible(s, a)
  {
    match a
    case Resume(t) => Enqueued(s, t)
    case Signal(w) => Enqueued(s, s.lists[w][0])
    case Dispatch => var t := s.lists[0][|s.lists[0]| - 1]; Dequeued(s, t).(running := Some(t))
    case Link(w) => s.(lists := s.lists[w := s.lists[w] + [s.running.value]])
    case Stop => s.(running := None)
    case Yield => Enqueued(s.(running := None), s.running.value)
  }

  predicate Executable<T(==)>(s: State<T>, acts: seq<Action<T>>)
    decreases |acts|
  {
    acts == [] || (Enabled(s, acts[0]) && Executable(Apply(s, acts[0]), acts[1..]))
  }

  function Exec<T(==)>(s: State<T>, acts: seq<Action<T>>): State<T>
    requires Executable(s, acts)
    decreases |acts|
  {
    if acts == [] then s else Exec(Apply(s, acts[0]), acts[1..])
  }

  // ---- every link is on at most one list

  /** No task twice on a list or on two lists. */
  ghost predicate Exclusive<T>(s: State<T>) {
    && (forall w :: 0 <= w < |s.lists| ==> Distinct(s.lists[w]))
    && (forall w, v :: 0 <= w < |s.lists| && 0 <= v < |s.lists| && w != v ==> Apart(s.lists[w], s.lists[v]))
  }

  ghost predicate Inv<T>(s: State<T>) {
    s.lists != [] && Exclusive(s)
  }

  /** task_num is at least the length of the run queue. */
  ghost predicate Counted<T>(s: State<T>) {
    s.lists != [] && s.dequeues + |s.lists[0]| <= s.enqueues
  }

  /** After an enqueue the task is on the run queue, at its new end, and nowhere else. */
  lemma EnqueueExcludes<T>(s: State<T>, t: T)
    requires Inv(s)
    ensures var s' := Enqueued(s, t);
            && Inv(s') && s'.lists[0][0] == t && (Counted(s) ==> Counted(s'))
            && forall w :: 1 <= w < |s'.lists| ==> t !in s'.lists[w]
  {
    var ls := Unlisted(s.lists, t);
    var s' := Enqueued(s, t);
    forall w | 0 <= w < |ls|
      ensures Distinct(s'.lists[w]) && |ls[w]| <= |s.lists[w]|
    {
      RemoveDistinct(s.lists[w], t);
    }
    forall w, v | 0 <= w < |ls| && 0 <= v < |ls| && w != v
      ensures Apart(s'.lists[w], s'.lists[v])
    {
      RemoveApart(s.lists[w], s.lists[v], t);
    }
  }

  lemma KeepsInv<T>(s: State<T>, a: Action<T>)
    requires Inv(s) && Enabled(s, a)
    ensures Inv(Apply(s, a)) && (Counted(s) ==> Counted(Apply(s, a)))
  {
    match a
    case Resume(t) => EnqueueExcludes(s, t);
    case Signal(w) => EnqueueExcludes(s, s.lists[w][0]);
    case Dispatch => DispatchKeeps(s);
    case Link(w) => LinkKeeps(s, w);
    case Stop => SameLists(s, s.(running := None));
    case Yield =>
      SameLists(s, s.(running := None));
      EnqueueExcludes(s.(running := None), s.running.value);
  }

  lemma SameLists<T>(s: State<T>, s': State<T>)
    requires s'.lists == s.lists && s'.enqueues == s.enqueues && s'.dequeues == s.dequeues
    ensures Inv(s') == Inv(s) && Counted(s') == Counted(s)
  {}

  lemma DispatchKeeps<T>(s: State<T>)
    requires Inv(s) && Enabled(s, Dispatch)
    ensures Inv(Apply(s, Dispatch)) && (Counted(s) ==> Counted(Apply(s, Dispatch)))
  {
    var t := s.lists[0][|s.lists[0]| - 1];
    DequeueKeeps(s, t);
    DispatchUnlists(s);
    SameLists(Dequeued(s, t), Apply(s, Dispatch));
  }

  lemma DequeueKeeps<T>(s: State<T>, t: T)
    requires Inv(s)
    ensures Inv(Dequeued(s, t)) && Unlinked(Dequeued(s, t), t)
  {
    var ls := Unlisted(s.lists, t);
    forall w | 0 <= w < |ls| ensures Distinct(ls[w]) { RemoveDistinct(s.lists[w], t); }
    forall w, v | 0 <= w < |ls| && 0 <= v < |ls| && w != v ensures Apart(ls[w], ls[v]) {
      RemoveApart(s.lists[w], s.lists[v], t);
    }
  }

  /** Dequeuing the picked task takes it off the run queue, the only list it is on. */
  lemma DispatchUnlists<T>(s: State<T>)
    requires Inv(s) && s.lists[0] != []
    ensures var n := |s.lists[0]| - 1;
            Unlisted(s.lists, s.lists[0][n]) == s.lists[0 := s.lists[0][..n]]
  {
    var n := |s.lists[0]| - 1;
    forall w | 0 <= w < |s.lists|
      ensures Remove(s.lists[w], s.lists[0][n]) == s.lists[0 := s.lists[0][..n]][w]
    {
      if w == 0 {
        RemoveAt(s.lists[0], n);
      } else {
        assert Apart(s.lists[0], s.lists[w]);
        RemoveAbsent(s.lists[w], s.lists[0][n]);
      }
    }
  }

  /** A dispatch takes the oldest entry off the run queue and runs it. */
  lemma DispatchTakesOldest<T>(s: State<T>)
    requires Inv(s) && Enabled(s, Dispatch)
    ensures var s' := Apply(s, Dispatch);
            s'.lists != [] && s'.running.Some? && s.lists[0] == s'.lists[0] + [s'.running.value]
  {
    DispatchUnlists(s);
  }

  lemma LinkKeeps<T>(s: State<T>, w: nat)
    requires Inv(s) && Enabled(s, Link(w))
    ensures Inv(Apply(s, Link(w))) && (Counted(s) ==> Counted(Apply(s, Link(w))))
  {
    var s' := Apply(s, Link(w));
    var t := s.running.value;
    DistinctSnoc(s.lists[w], t);
    forall u, v | 0 <= u < |s.lists| && 0 <= v < |s.lists| && u != v ensures Apart(s'.lists[u], s'.lists[v]) {
      assert Apart(s.lists[u], s.lists[v]);
      assert t !in s.lists[u] && t !in s.lists[v];
    }
  }

  lemma {:induction false} RunKeepsInv<T>(s: State<T>, acts: seq<Action<T>>)
    requires Inv(s) && Executable(s, acts)
    ensures Inv(Exec(s, acts)) && (Counted(s) ==> Counted(Exec(s, acts)))
    decreases |acts|
  {
    if acts != [] {
      KeepsInv(s, acts[0]);
      RunKeepsInv(Apply(s, acts[0]), acts[1..]);
    }
  }

  function Init<T>(waitLists: nat): State<T> {
    State([[]] + seq(waitLists, _ => []), None, 0, 0)
  }

  /**
   In every run of the thread each task's link is on at most one list, once, and task_num is
   never below the length of the run queue.
   */
  lemma {:induction false} LinksStayExclusive<T>(waitLists: nat, acts: seq<Action<T>>)
    requires Executable(Init<T>(waitLists), acts)
    ensures var s := Exec(Init(waitLists), acts);
            && (forall w, v :: 0 <= w < |s.lists| && 0 <= v < |s.lists| && w != v ==> Apart(s.lists[w], s.lists[v]))
            && (forall w :: 0 <= w < |s.lists| ==> Distinct(s.lists[w]))
            && |s.lists| > 0 && s.enqueues - s.dequeues >= |s.lists[0]|
  {
    RunKeepsInv(Init(waitLists), acts);
  }

  // ---- where the link of the running task is

  /** The action resumes the running task, which then is queued while it runs. */
  predicate SelfResume<T(==)>(s: State<T>, a: Action<T>)
    requires Possible(s, a)
  {
    s.running.Some? && (a == Resume(s.running.value) || (a.Signal? && s.lists[a.w][0] == s.running.value))
  }

  ghost predicate OffQueue<T>(s: State<T>) {
    s.lists != [] && (s.running.Some? ==> s.running.value !in s.lists[0])
  }

  ghost predicate NeverSelfResumed<T>(s: State<T>, acts: seq<Action<T>>)
    requires Executable(s, acts)
    decreases |acts|
  {
    acts == [] || (!SelfResume(s, acts[0]) && NeverSelfResumed(Apply(s, acts[0]), acts[1..]))
  }

  lemma KeepsOffQueue<T>(s: State<T>, a: Action<T>)
    requires Inv(s) && OffQueue(s) && Enabled(s, a) && !SelfResume(s, a)
    ensures OffQueue(Apply(s, a))
  {
    match a
    case Resume(t) => if s.running.Some? { RemoveMember(s.lists[0], t, s.running.value); }
    case Signal(w) => if s.running.Some? { RemoveMember(s.lists[0], s.lists[w][0], s.running.value); }
    case Dispatch => DequeueKeeps(s, s.lists[0][|s.lists[0]| - 1]);
    case Link(w) =>
    case Stop =>
    case Yield =>
  }

  lemma {:induction false} RunKeepsOffQueue<T>(s: State<T>, acts: seq<Action<T>>)
    requires Inv(s) && OffQueue(s) && Executable(s, acts) && NeverSelfResumed(s, acts)
    ensures OffQueue(Exec(s, acts))
    decreases |acts|
  {
    if acts != [] {
      KeepsInv(s, acts[0]);
      KeepsOffQueue(s, acts[0]);
      RunKeepsOffQueue(Apply(s, acts[0]), acts[1..]);
    }
  }

  /** If nobody resumes the running task, it is never on the run queue; on a wait list it may be. */
  lemma {:induction false} RunningTaskIsNotQueued<T>(waitLists: nat, acts: seq<Action<T>>)
    requires Executable(Init<T>(waitLists), acts) && NeverSelfResumed(Init<T>(waitLists), acts)
    ensures var s := Exec(Init(waitLists), acts);
            s.lists != [] && (s.running.Some? ==> s.running.value !in s.lists[0])
  {
    RunKeepsOffQueue(Init(waitLists), acts);
  }

  /** A dispatched task starts with a free link, and keeps it free until it links itself or is resumed. */
  lemma LinkIsFreeUntilUsed<T>(s: State<T>, a: Action<T>, t: T)
    requires Inv(s) && Enabled(s, a) && Apply(s, a).running == Some(t)
    requires a.Dispatch? || (s.running == Some(t) && Unlinked(s, t) && !a.Link? && !SelfResume(s, a))
    ensures Unlinked(Apply(s, a), t)
  {
    match a
    case Resume(u) =>
      forall w | 0 <= w < |s.lists| ensures t !in Apply(s, a).lists[w] { RemoveMember(s.lists[w], u, t); }
    case Signal(v) =>
      forall w | 0 <= w < |s.lists| ensures t !in Apply(s, a).lists[w] { RemoveMember(s.lists[w], s.lists[v][0], t); }
    case Dispatch => DequeueKeeps(s, t);
    case Link(w) =>
    case Stop =>
    case Yield =>
  }

  /**
   The run uses links as the source does: nobody resumes the running task, and it links itself
   at most once between its dispatch and its stop; `linked` says whether it has.
   */
  ghost predicate Disciplined<T>(s: State<T>, linked: bool, acts: seq<Action<T>>)
    decreases |acts|
  {
    acts == [] ||
    (&& Possible(s, acts[0]) && !SelfResume(s, acts[0]) && (acts[0].Link? ==> !linked)
     && Disciplined(Apply(s, acts[0]), Linked(linked, acts[0]), acts[1..]))
  }

  function Linked<T>(linked: bool, a: Action<T>): bool {
    if a.Link? then true else if a.Dispatch? then false else linked
  }

  /** A running task that has not linked itself has its link free. */
  ghost predicate LinkFree<T>(s: State<T>, linked: bool) {
    s.running.Some? && !linked ==> Unlinked(s, s.running.value)
  }

  lemma {:induction false} DisciplineFrom<T>(s: State<T>, linked: bool, acts: seq<Action<T>>)
    requires Inv(s) && LinkFree(s, linked) && Disciplined(s, linked, acts)
    ensures Executable(s, acts)
    decreases |acts|
  {
    if acts != [] {
      var a := acts[0];
      var s', linked' := Apply(s, a), Linked(linked, a);
      KeepsInv(s, a);
      if s'.running.Some? && !linked' { LinkIsFreeUntilUsed(s, a, s'.running.value); }
      DisciplineFrom(s', linked', acts[1..]);
    }
  }

  /** In every such run each list_add_before finds the link on no list. */
  lemma {:induction false} LinkAlwaysFindsTheLinkFree<T>(waitLists: nat, acts: seq<Action<T>>)
    requires Disciplined(Init<T>(waitLists), false, acts)
    ensures Executable(Init<T>(waitLists), acts)
  {
    DisciplineFrom(Init<T>(waitLists), false, acts);
  }

  /** A waiter resumed by a timeout has left its wait list, so a later signal is not spent on it. */
  lemma {:induction false} TimedOutWaiterIsGone<T>(waitLists: nat, acts: seq<Action<T>>, t: T)
    requires Executable(Init<T>(waitLists), acts) && Enabled(Exec(Init(waitLists), acts), Resume(t))
    ensures var s := Apply(Exec(Init(waitLists), acts), Resume(t));
            forall w :: 1 <= w < |s.lists| && s.lists[w] != [] ==>
              t !in s.lists[w] && Apply(s, Signal(w)).lists[0][..2] == [s.lists[w][0], t]
  {
    RunKeepsInv(Init(waitLists), acts);
    var s := Exec(Init(waitLists), acts);
    var s' := Apply(s, Resume(t));
    forall w | 1 <= w < |s'.lists| && s'.lists[w] != []
      ensures t !in s'.lists[w] && Apply(s', Signal(w)).lists[0][..2] == [s'.lists[w][0], t]
    {
      SignalAfterResume(s, t, w);
    }
  }

  lemma {:induction false} SignalAfterResume<T>(s: State<T>, t: T, w: nat)
    requires Inv(s) && Enabled(s, Resume(t)) && 1 <= w < |Enqueued(s, t).lists| && Enqueued(s, t).lists[w] != []
    ensures var s' := Enqueued(s, t);
            t !in s'.lists[w] && Apply(s', Signal(w)).lists[0][..2] == [s'.lists[w][0], t]
  {
    EnqueueExcludes(s, t);
    SignalWakesItsOldest(Enqueued(s, t), w);
  }

  /** A signal puts the oldest waiter of its list behind the present run queue. */
  lemma SignalWakesItsOldest<T>(s: State<T>, w: nat)
    requires Inv(s) && Enabled(s, Signal(w))
    ensures var s' := Apply(s, Signal(w));
            && s'.lists[0] == [s.lists[w][0]] + s.lists[0]
            && |s'.lists| == |s.lists| && s'.lists[w] == s.lists[w][1..]
  {
    var u := s.lists[w][0];
    assert Apart(s.lists[w], s.lists[0]);
    RemoveAbsent(s.lists[0], u);
    RemoveAt(s.lists[w], 0);
  }

  // ---- signal and broadcast

  lemma UnlistKeeps<T>(s: State<T>, t: T)
    requires Inv(s)
    ensures var s' := s.(lists := Unlisted(s.lists, t));
            Inv(s') && Requeued(s'.lists, t) == Requeued(s.lists, t)
  {
    var ls := Unlisted(s.lists, t);
    forall w | 0 <= w < |ls|
      ensures Distinct(ls[w]) && |ls[w]| <= |s.lists[w]| && Remove(ls[w], t) == ls[w]
    {
      RemoveDistinct(s.lists[w], t);
      RemoveAbsent(ls[w], t);
    }
    forall w, v | 0 <= w < |ls| && 0 <= v < |ls| && w != v ensures Apart(ls[w], ls[v]) {
      RemoveApart(s.lists[w], s.lists[v], t);
    }
    assert Unlisted(ls, t) == ls;
  }

  /** _co_cond_signal_all with `all` set: signal until the list is empty. */
  ghost function Broadcast<T>(s: State<T>, w: nat): State<T>
    requires Inv(s) && 1 <= w < |s.lists|
    decreases |s.lists[w]|
  {
    if s.lists[w] == [] then s
    else
      SignalWakesItsOldest(s, w);
      KeepsInv(s, Signal(w));
      Broadcast(Apply(s, Signal(w)), w)
  }

  function Reversed<T>(q: seq<T>): seq<T> {
    if q == [] then [] else Reversed(q[1..]) + [q[0]]
  }

  /** A broadcast empties its list and queues the waiters in the order they came, touching no other list. */
  lemma {:induction false} BroadcastWakesAllInOrder<T>(s: State<T>, w: nat)
    requires Inv(s) && 1 <= w < |s.lists|
    ensures var s' := Broadcast(s, w);
            && Inv(s') && s'.running == s.running
            && s'.lists == Woken(s.lists, w)
            && s'.enqueues == s.enqueues + |s.lists[w]|
    decreases |s.lists[w]|
  {
    if s.lists[w] != [] {
      OneWoken(s, w);
      BroadcastWakesAllInOrder(Apply(s, Signal(w)), w);
      OneAfterAnother(s.lists, w);
    } else {
      AllWoken(s.lists, w);
    }
  }

  /** The waiters of list w on the run queue. */
  ghost function Woken<T>(lists: seq<seq<T>>, w: nat): seq<seq<T>>
    requires 1 <= w < |lists|
  {
    lists[0 := Reversed(lists[w]) + lists[0]][w := []]
  }

  lemma {:induction false} AllWoken<T>(lists: seq<seq<T>>, w: nat)
    requires 1 <= w < |lists| && lists[w] == []
    ensures Woken(lists, w) == lists
  {
    assert Reversed(lists[w]) + lists[0] == lists[0];
  }

  lemma {:induction false} OneAfterAnother<T>(lists: seq<seq<T>>, w: nat)
    requires 1 <= w < |lists| && lists[w] != []
    ensures var q := lists[w]; Woken(lists[0 := [q[0]] + lists[0]][w := q[1..]], w) == Woken(lists, w)
  {
    var q := lists[w];
    assert Reversed(q[1..]) + ([q[0]] + lists[0]) == Reversed(q) + lists[0];
  }

  /** One round of a broadcast. */
  lemma {:induction false} OneWoken<T>(s: State<T>, w: nat)
    requires Inv(s) && Enabled(s, Signal(w))
    ensures var s1, q := Apply(s, Signal(w)), s.lists[w];
            && Inv(s1) && s1.running == s.running && s1.enqueues == s.enqueues + 1
            && s1.lists == s.lists[0 := [q[0]] + s.lists[0]][w := q[1..]]
  {
    SignalWakesItsOldest(s, w);
    KeepsInv(s, Signal(w));
    SignalTouchesNoOther(s, w);
  }

  lemma SignalTouchesNoOther<T>(s: State<T>, w: nat)
    requires Inv(s) && Enabled(s, Signal(w))
    ensures forall v :: 1 <= v < |s.lists| && v != w ==> Apply(s, Signal(w)).lists[v] == s.lists[v]
  {
    forall v | 1 <= v < |s.lists| && v != w ensures Apply(s, Signal(w)).lists[v] == s.lists[v] {
      assert Apart(s.lists[w], s.lists[v]);
      RemoveAbsent(s.lists[v], s.lists[w][0]);
    }
  }

  // ---- co_cond_wait

  /** co_cond_wait up to its yield: link onto the condition, unlock the mutex, which may wake a waiter, and stop. */
  ghost function CondWaited<T>(s: State<T>, c: nat, m: nat): State<T>
    requires Inv(s) && Enabled(s, Link(c)) && 1 <= m < |s.lists|
  {
    var s1 := Apply(s, Link(c));
    var s2 := if s1.lists[m] == [] then s1 else Apply(s1, Signal(m));
    Apply(s2, Stop)
  }

  /**
   The order of co_cond_wait is safe: while the task runs on, its link already sits on the
   condition; the mutex waiter it wakes is queued all the same, and no other list changes.
   */
  lemma {:induction false} CondWaitHandsOver<T>(s: State<T>, c: nat, m: nat)
    requires Inv(s) && Enabled(s, Link(c)) && 1 <= m < |s.lists| && c != m
    ensures var r, s1, s' := s.running.value, Apply(s, Link(c)), CondWaited(s, c, m);
            && s1.running == Some(r) && r in s1.lists[c] && Inv(s1)
            && Inv(s') && s'.running.None? && s'.lists == HandedOver(s.lists, c, m, r)
  {
    var s1 := Apply(s, Link(c));
    LinkKeeps(s, c);
    if s.lists[m] != [] { OneWoken(s1, m); }
    HandOver(s.lists, s1.lists, CondWaited(s, c, m).lists, c, m, s.running.value);
  }

  /** Task r at the tail of list c, and the head of list m, if any, on the run queue. */
  ghost function HandedOver<T>(lists: seq<seq<T>>, c: nat, m: nat, r: T): seq<seq<T>>
    requires 1 <= c < |lists| && 1 <= m < |lists|
  {
    var q := lists[m];
    (if q == [] then lists else lists[0 := [q[0]] + lists[0]][m := q[1..]])[c := lists[c] + [r]]
  }

  lemma {:induction false} HandOver<T>(lists: seq<seq<T>>, ls1: seq<seq<T>>, ls2: seq<seq<T>>, c: nat, m: nat, r: T)
    requires 1 <= c < |lists| && 1 <= m < |lists| && c != m && ls1 == lists[c := lists[c] + [r]]
    requires ls2 == if ls1[m] == [] then ls1 else ls1[0 := [ls1[m][0]] + ls1[0]][m := ls1[m][1..]]
    ensures ls2 == HandedOver(lists, c, m, r)
  {}

  // ---- polling for events

  /** The task RR_picknext sees at the tail of the run queue. */
  function Tail<T>(s: State<T>): Option<T>
    requires s.lists != []
  {
    if s.lists[0] == [] then None else Some(s.lists[0][|s.lists[0]| - 1])
  }

  /** The resumes made by one event_wait, in order. */
  function ResumeAll<T(==)>(s: State<T>, ts: seq<T>): (r: State<T>)
    requires s.lists != []
    ensures r.lists != [] && r.running == s.running
  {
    if ts == [] then s else Enqueued(ResumeAll(s, ts[..|ts| - 1]), ts[|ts| - 1])
  }

  lemma {:induction false} ResumeOneMore<T>(s: State<T>, ts: seq<T>, i: nat)
    requires s.lists != [] && i < |ts|
    ensures ResumeAll(s, ts[..i + 1]) == Enqueued(ResumeAll(s, ts[..i]), ts[i])
  {
    assert ts[..i + 1][..i] == ts[..i];
  }

  /** The states between successive polls, made only while the queue stays empty. */
  ghost predicate Polls<T>(trace: seq<State<T>>, events: seq<seq<T>>) {
    && |trace| <= |events| + 1
    && (forall j :: 0 <= j < |trace| ==> trace[j].lists != [])
    && (forall j :: 0 <= j < |trace| - 1 ==> PollStep(trace, events, j))
  }

  ghost predicate PollStep<T>(trace: seq<State<T>>, events: seq<seq<T>>, j: nat)
    requires j + 1 < |trace| && j < |events| && trace[j].lists != []
  {
    trace[j + 1] == ResumeAll(trace[j], events[j]) && (j >= 1 ==> trace[j].lists[0] == [])
  }

  /** `trace` leads from `s0` to `s`. */
  ghost predicate PolledFrom<T>(s0: State<T>, trace: seq<State<T>>, events: seq<seq<T>>, s: State<T>) {
    trace != [] && trace[0] == s0 && trace[|trace| - 1] == s && Polls(trace, events)
  }

  lemma {:induction false} PolledSnoc<T>(
      s0: State<T>, trace: seq<State<T>>, events: seq<seq<T>>, s: State<T>, s': State<T>)
    requires PolledFrom(s0, trace, events, s) && |trace| <= |events|
    requires s.lists != [] && s' == ResumeAll(s, events[|trace| - 1])
    requires |trace| >= 2 ==> s.lists[0] == []
    ensures PolledFrom(s0, trace + [s'], events, s')
  {
    var longer := trace + [s'];
    forall j | 0 <= j < |trace| ensures PollStep(longer, events, j) {
      if j < |trace| - 1 { assert PollStep(trace, events, j); }
    }
  }

  // ---- round-robin bound

  /** How many queued tasks will be picked before `t`. */
  function Ahead<T(==)>(q: seq<T>, t: T): nat {
    if q == [] then 0 else if q[0] == t then |q| - 1 else Ahead(q[1..], t)
  }

  lemma {:induction false} AheadAfterRemove<T>(q: seq<T>, u: T, t: T)
    requires t in q && u != t
    ensures Ahead(Remove(q, u), t) <= Ahead(q, t)
    decreases |q|
  {
    RemoveMember(q, u, t);
    if q[0] == t {
      RemoveShortens(q[1..], u);
    } else {
      AheadAfterRemove(q[1..], u, t);
    }
  }

  lemma {:induction false} RemoveShortens<T>(q: seq<T>, u: T)
    ensures |Remove(q, u)| <= |q|
    decreases |q|
  {
    if q != [] { RemoveShortens(q[1..], u); }
  }

  lemma {:induction false} AheadAfterPick<T>(q: seq<T>, t: T)
    requires t in q && q[|q| - 1] != t
    ensures t in q[..|q| - 1] && Ahead(q[..|q| - 1], t) == Ahead(q, t) - 1
    decreases |q|
  {
    var n := |q| - 1;
    assert q == q[..n] + [q[n]];
    if q[0] != t {
      AheadAfterPick(q[1..], t);
      assert q[1..][..n - 1] == q[..n][1..];
    }
  }

  function Dispatches<T(==)>(acts: seq<Action<T>>): nat {
    if acts == [] then 0 else (if acts[0].Dispatch? then 1 else 0) + Dispatches(acts[1..])
  }

  /** `t` is picked at some point of the run. */
  predicate Picked<T(==)>(s: State<T>, acts: seq<Action<T>>, t: T)
    requires Executable(s, acts)
    decreases |acts|
  {
    acts != [] &&
    var s' := Apply(s, acts[0]);
    (acts[0].Dispatch? && s'.running == Some(t)) || Picked(s', acts[1..], t)
  }

  /** One action either picks `t`, or keeps it queued and lets nobody overtake it. */
  lemma NobodyOvertakes<T>(s: State<T>, a: Action<T>, t: T)
    requires Inv(s) && Enabled(s, a) && t in s.lists[0] && s.running != Some(t) && a != Resume(t)
    ensures var s' := Apply(s, a);
            || (a.Dispatch? && s'.running == Some(t))
            || (s'.lists != [] && t in s'.lists[0] && s'.running != Some(t) &&
                Ahead(s'.lists[0], t) + (if a.Dispatch? then 1 else 0) <= Ahead(s.lists[0], t))
  {
    match a
    case Resume(u) => RemoveMember(s.lists[0], u, t); AheadAfterRemove(s.lists[0], u, t);
    case Signal(w) =>
      var u := s.lists[w][0];
      assert Apart(s.lists[w], s.lists[0]);
      RemoveMember(s.lists[0], u, t);
      AheadAfterRemove(s.lists[0], u, t);
    case Dispatch => DispatchUnlists(s); if s.lists[0][|s.lists[0]| - 1] != t { AheadAfterPick(s.lists[0], t); }
    case Link(w) =>
    case Stop =>
    case Yield => RemoveMember(s.lists[0], s.running.value, t); AheadAfterRemove(s.lists[0], s.running.value, t);
  }

  /**
   A queued task with k tasks ahead of it is dispatched after at most k other dispatches,
   whatever the running tasks, events and signals do, unless it is itself resumed again.
   */
  lemma {:induction false} RoundRobinBound<T>(s: State<T>, acts: seq<Action<T>>, t: T)
    requires Inv(s) && Executable(s, acts) && t in s.lists[0] && s.running != Some(t) && Resume(t) !in acts
    ensures Dispatches(acts) > Ahead(s.lists[0], t) ==> Picked(s, acts, t)
    decreases |acts|
  {
    if acts != [] {
      assert acts[0] != Resume(t);
      KeepsInv(s, acts[0]);
      NobodyOvertakes(s, acts[0], t);
      var s' := Apply(s, acts[0]);
      if !(acts[0].Dispatch? && s'.running == Some(t)) {
        assert Resume(t) !in acts[1..];
        RoundRobinBound(s', acts[1..], t);
      }
    }
  }
}
