/**
 The ticket spin lock of co_spin_lock.c: `next` and `owner` are machine counters that wrap.
 The modulus is a parameter `m`, which is 2^32 for the source's counters.
 */
module TicketLock {
  import opened Common
  import opened Residue

  type Task = nat

  datatype Pc =
    | Out                    // no ticket
    | Spin(ticket: nat)      // spin_lock: polling `owner`
    | In(ticket: nat)        // holds the lock

  /** `takes`, `entries` and `exits` are history: who took a ticket, who entered, how many left. */
  datatype State = State(next: nat, owner: nat, pc: seq<Pc>, takes: seq<Task>, entries: seq<Task>, exits: nat)

  datatype Action = Take(t: Task) | Enter(t: Task) | Exit(t: Task)

  function Init(n: nat): State { State(0, 0, seq(n, _ => Out), [], [], 0) }

  predicate Enabled(s: State, a: Action) {
    a.t < |s.pc| &&
    match a
    case Take(t) => s.pc[t].Out?
    case Enter(t) => s.pc[t].Spin? && s.pc[t].ticket == s.owner
    case Exit(t) => s.pc[t].In?
  }

  function Apply(m: nat, s: State, a: Action): State
    requires m > 0 && Enabled(s, a)
  {
    match a
    case Take(t) => s.(pc := s.pc[t := Spin(s.next)], next := (s.next + 1) % m, takes := s.takes + [t])
    case Enter(t) => s.(pc := s.pc[t := In(s.pc[t].ticket)], entries := s.entries + [t])
    case Exit(t) => s.(pc := s.pc[t := Out], owner := (s.owner + 1) % m, exits := s.exits + 1)
  }

  predicate Executable(m: nat, s: State, acts: seq<Action>)
    requires m > 0
    decreases |acts|
  {
    acts == [] || (Enabled(s, acts[0]) && Executable(m, Apply(m, s, acts[0]), acts[1..]))
  }

  function Exec(m: nat, s: State, acts: seq<Action>): State
    requires m > 0 && Executable(m, s, acts)
    decreases |acts|
  {
    if acts == [] then s else Exec(m, Apply(m, s, acts[0]), acts[1..])
  }

  // ---- invariant

  /** The outstanding tickets, oldest first, are `takes[exits..]`; only the oldest can be inside. */
  ghost predicate Inv(m: nat, s: State)
    requires m > 0
  {
    && s.exits <= |s.entries| <= s.exits + 1
    && |s.entries| <= |s.takes|
    && s.entries == s.takes[..|s.entries|]
    && s.owner == s.exits % m && s.next == |s.takes| % m
    && |s.takes| - s.exits <= |s.pc|
    && (forall i :: s.exits <= i < |s.takes| ==> TicketAt(m, s, i))
    && (forall t :: 0 <= t < |s.pc| && !s.pc[t].Out? ==> exists i :: s.exits <= i < |s.takes| && s.takes[i] == t)
    && Distinct(s.takes[s.exits..])
  }

  /** The holder of the i-th ticket ever taken. */
  ghost predicate TicketAt(m: nat, s: State, i: nat)
    requires m > 0 && i < |s.takes|
  {
    var t := s.takes[i];
    t < |s.pc| && s.pc[t] == if i < |s.entries| then In(i % m) else Spin(i % m)
  }

  /** Only the task with the oldest outstanding ticket can see its number on display. */
  lemma EntrantIsOldest(m: nat, s: State, t: Task)
    requires m > 0 && Inv(m, s) && |s.pc| <= m && Enabled(s, Enter(t))
    ensures s.exits < |s.takes| && s.takes[s.exits] == t && |s.entries| == s.exits
  {
    var i :| s.exits <= i < |s.takes| && s.takes[i] == t;
    assert TicketAt(m, s, i);
    SameResidue(m, s.exits, i);
  }

  lemma TakeKeepsTicket(m: nat, s: State, t: Task, i: nat)
    requires m > 0 && Inv(m, s) && Enabled(s, Take(t)) && s.exits <= i <= |s.takes|
    ensures TicketAt(m, Apply(m, s, Take(t)), i)
  {
    if i < |s.takes| { assert TicketAt(m, s, i); }
  }

  lemma TakeKeepsHolders(m: nat, s: State, t: Task, x: Task)
    requires m > 0 && Inv(m, s) && Enabled(s, Take(t)) && x < |s.pc| && (x == t || !s.pc[x].Out?)
    ensures exists i :: s.exits <= i <= |s.takes| && (s.takes + [t])[i] == x
  {
    if x == t {
      assert (s.takes + [t])[|s.takes|] == t;
    } else {
      var i :| s.exits <= i < |s.takes| && s.takes[i] == x;
      assert (s.takes + [t])[i] == x;
    }
  }

  lemma KeepsTake(m: nat, s: State, t: Task)
    requires m > 0 && Inv(m, s) && |s.pc| <= m && Enabled(s, Take(t))
    ensures Inv(m, Apply(m, s, Take(t)))
  {
    var s' := Apply(m, s, Take(t));
    NextResidue(m, |s.takes|);
    forall i | s'.exits <= i < |s'.takes| ensures TicketAt(m, s', i) { TakeKeepsTicket(m, s, t, i); }
    forall x | 0 <= x < |s'.pc| && !s'.pc[x].Out?
      ensures exists i :: s'.exits <= i < |s'.takes| && s'.takes[i] == x
    {
      TakeKeepsHolders(m, s, t, x);
    }
    TakeExtendsQueue(m, s, t);
  }

  lemma TakeExtendsQueue(m: nat, s: State, t: Task)
    requires m > 0 && Inv(m, s) && t < |s.pc| && s.pc[t].Out?
    ensures var q := (s.takes + [t])[s.exits..]; Distinct(q) && |q| <= |s.pc|
  {
    var q := s.takes[s.exits..];
    assert (s.takes + [t])[s.exits..] == q + [t];
    forall i | 0 <= i < |q|
      ensures q[i] != t && q[i] < |s.pc|
    {
      assert TicketAt(m, s, s.exits + i);
    }
    DistinctBound(q + [t], |s.pc|);
  }

  /** A duplicate-free sequence of task numbers below n has at most n elements. */
  lemma {:induction false} DistinctBound(q: seq<Task>, n: nat)
    requires Distinct(q) && forall i :: 0 <= i < |q| ==> q[i] < n
    ensures |q| <= n
    decreases n
  {
    if q != [] {
      assert q[0] < n;
      if n - 1 in q {
        var k :| 0 <= k < |q| && q[k] == n - 1;
        DistinctBound(q[..k] + q[k + 1..], n - 1);
      } else {
        DistinctBound(q, n - 1);
      }
    }
  }

  lemma KeepsEnter(m: nat, s: State, t: Task)
    requires m > 0 && Inv(m, s) && |s.pc| <= m && Enabled(s, Enter(t))
    ensures Inv(m, Apply(m, s, Enter(t)))
  {
    var s' := Apply(m, s, Enter(t));
    EntrantIsOldest(m, s, t);
    assert TicketAt(m, s, s.exits);
    var q := s.takes[s.exits..];
    forall i | s'.exits <= i < |s'.takes|
      ensures TicketAt(m, s', i)
    {
      assert TicketAt(m, s, i);
      if i > s.exits { assert q[0] != q[i - s.exits]; }
    }
  }

  /** The task that leaves holds the oldest ticket, and no other. */
  lemma LeaverIsOldest(m: nat, s: State, t: Task)
    requires m > 0 && Inv(m, s) && Enabled(s, Exit(t))
    ensures s.exits < |s.takes| && s.takes[s.exits] == t && |s.entries| == s.exits + 1
    ensures forall i :: s.exits < i < |s.takes| ==> s.takes[i] != t
  {
    var k :| s.exits <= k < |s.takes| && s.takes[k] == t;
    assert TicketAt(m, s, k);
    var q := s.takes[s.exits..];
    forall i | s.exits < i < |s.takes| ensures s.takes[i] != t { assert q[0] != q[i - s.exits]; }
  }

  lemma ExitKeepsTicket(m: nat, s: State, t: Task, i: nat)
    requires m > 0 && Inv(m, s) && Enabled(s, Exit(t)) && s.exits < i < |s.takes| && s.takes[i] != t
    ensures TicketAt(m, Apply(m, s, Exit(t)), i)
  {
    assert TicketAt(m, s, i);
  }

  lemma ExitKeepsHolders(m: nat, s: State, t: Task, x: Task)
    requires m > 0 && Inv(m, s) && s.exits < |s.takes| && s.takes[s.exits] == t && x < |s.pc| && x != t && !s.pc[x].Out?
    ensures exists i :: s.exits < i < |s.takes| && s.takes[i] == x
  {
    var i :| s.exits <= i < |s.takes| && s.takes[i] == x;
    assert i != s.exits;
  }

  lemma KeepsExit(m: nat, s: State, t: Task)
    requires m > 0 && Inv(m, s) && Enabled(s, Exit(t))
    ensures Inv(m, Apply(m, s, Exit(t))) && s.takes[s.exits] == t
  {
    var s' := Apply(m, s, Exit(t));
    NextResidue(m, s.exits);
    LeaverIsOldest(m, s, t);
    forall i | s'.exits <= i < |s'.takes| ensures TicketAt(m, s', i) { ExitKeepsTicket(m, s, t, i); }
    forall x | 0 <= x < |s'.pc| && !s'.pc[x].Out?
      ensures exists i :: s'.exits <= i < |s'.takes| && s'.takes[i] == x
    {
      ExitKeepsHolders(m, s, t, x);
    }
    var q := s.takes[s.exits..];
    assert s'.takes[s'.exits..] == q[1..];
  }

  lemma KeepsInv(m: nat, s: State, a: Action)
    requires m > 0 && Inv(m, s) && |s.pc| <= m && Enabled(s, a)
    ensures Inv(m, Apply(m, s, a)) && |Apply(m, s, a).pc| == |s.pc|
  {
    match a
    case Take(t) => KeepsTake(m, s, t);
    case Enter(t) => KeepsEnter(m, s, t);
    case Exit(t) => KeepsExit(m, s, t);
  }

  lemma {:induction false} RunKeepsInv(m: nat, s: State, acts: seq<Action>)
    requires m > 0 && Inv(m, s) && |s.pc| <= m && Executable(m, s, acts)
    ensures Inv(m, Exec(m, s, acts)) && |Exec(m, s, acts).pc| == |s.pc|
    decreases |acts|
  {
    if acts != [] {
      KeepsInv(m, s, acts[0]);
      RunKeepsInv(m, Apply(m, s, acts[0]), acts[1..]);
    }
  }

  // ---- main results

  ghost predicate Excludes(s: State) {
    forall t, u :: 0 <= t < |s.pc| && 0 <= u < |s.pc| && s.pc[t].In? && s.pc[u].In? ==> t == u
  }

  lemma InitInv(m: nat, n: nat)
    requires m > 0
    ensures Inv(m, Init(n))
  {
    ResIsMod(m, 0);
  }

  /** With at most `m` tasks: exclusion, and entry in the order the tickets were taken. */
  lemma {:induction false} ExcludesInTicketOrder(m: nat, n: nat, acts: seq<Action>)
    requires 0 < m && n <= m && Executable(m, Init(n), acts)
    ensures var s := Exec(m, Init(n), acts);
            Excludes(s) && s.entries <= s.takes
  {
    InitInv(m, n);
    RunKeepsInv(m, Init(n), acts);
    var s := Exec(m, Init(n), acts);
    forall t | 0 <= t < |s.pc| && s.pc[t].In?
      ensures s.exits < |s.takes| && t == s.takes[s.exits]
    {
      var i :| s.exits <= i < |s.takes| && s.takes[i] == t;
      assert TicketAt(m, s, i);
    }
  }

  /**
   The lock never idles with somebody waiting: while a ticket is out the holder of the oldest
   one can enter, or is inside and can leave, and nobody else can do either.
   */
  lemma {:induction false} OldestTicketMoves(m: nat, n: nat, acts: seq<Action>, t: Task)
    requires 0 < m && n <= m && Executable(m, Init(n), acts)
    requires var s := Exec(m, Init(n), acts); exists u :: 0 <= u < |s.pc| && !s.pc[u].Out?
    ensures var s := Exec(m, Init(n), acts);
            && s.exits < |s.takes|
            && (Enabled(s, Enter(t)) || Enabled(s, Exit(t)) <==> t == s.takes[s.exits])
  {
    InitInv(m, n);
    RunKeepsInv(m, Init(n), acts);
    var s := Exec(m, Init(n), acts);
    assert TicketAt(m, s, s.exits);
    if Enabled(s, Enter(t)) { EntrantIsOldest(m, s, t); }
    if Enabled(s, Exit(t)) { LeaverIsOldest(m, s, t); }
  }

  function TakeAll(k: nat): seq<Action> {
    if k == 0 then [] else TakeAll(k - 1) + [Take(k - 1)]
  }

  lemma {:induction false} ExecSnoc(m: nat, s: State, acts: seq<Action>, a: Action)
    requires m > 0 && Executable(m, s, acts) && Enabled(Exec(m, s, acts), a)
    ensures Executable(m, s, acts + [a])
    ensures Exec(m, s, acts + [a]) == Apply(m, Exec(m, s, acts), a)
    decreases |acts|
  {
    if acts == [] {
      assert [a][1..] == [];
    } else {
      assert (acts + [a])[1..] == acts[1..] + [a];
      ExecSnoc(m, Apply(m, s, acts[0]), acts[1..], a);
    }
  }

  /** After k of n tasks have queued up, task i holds ticket i mod m. */
  lemma {:induction false} AllQueued(m: nat, n: nat, k: nat)
    requires 0 < m && k <= n
    ensures Executable(m, Init(n), TakeAll(k))
    ensures var s := Exec(m, Init(n), TakeAll(k));
            && |s.pc| == n && s.owner == 0 && s.next == k % m
            && forall i :: 0 <= i < n ==> s.pc[i] == if i < k then Spin(i % m) else Out
  {
    if k == 0 {
      ResIsMod(m, 0);
    } else {
      AllQueued(m, n, k - 1);
      ExecSnoc(m, Init(n), TakeAll(k - 1), Take(k - 1));
      NextResidue(m, k - 1);
    }
  }

  /** One task more than the counters can tell apart, and two of them get in. */
  lemma {:induction false} OverflowBreaksExclusion(m: nat, n: nat) returns (acts: seq<Action>)
    requires 0 < m < n
    ensures Executable(m, Init(n), acts) && !Excludes(Exec(m, Init(n), acts))
  {
    AllQueued(m, n, m + 1);
    ResIsMod(m, 0);
    ResIsMod(m, m);
    ExecSnoc(m, Init(n), TakeAll(m + 1), Enter(0));
    ExecSnoc(m, Init(n), TakeAll(m + 1) + [Enter(0)], Enter(m));
    acts := TakeAll(m + 1) + [Enter(0)] + [Enter(m)];
    var s := Exec(m, Init(n), acts);
    assert s.pc[0].In? && s.pc[m].In?;
  }

  /** The ticket lock excludes in every run exactly when the tasks are no more than the tickets. */
  lemma {:induction false} CorrectExactlyUpToModulus(m: nat, n: nat)
    requires m > 0
    ensures (forall acts :: Executable(m, Init(n), acts) ==> Excludes(Exec(m, Init(n), acts))) <==> n <= m
  {
    if n <= m {
      forall acts | Executable(m, Init(n), acts)
        ensures Excludes(Exec(m, Init(n), acts))
      {
        ExcludesInTicketOrder(m, n, acts);
      }
    } else {
      var acts := OverflowBreaksExclusion(m, n);
    }
  }

  /** What spin_locked reports is true: the counters differ exactly when a ticket is out. */
  ghost predicate ReadsTrue(s: State) {
    s.owner != s.next <==> exists t :: 0 <= t < |s.pc| && !s.pc[t].Out?
  }

  lemma {:induction false} LockedReadsTrue(m: nat, n: nat, acts: seq<Action>)
    requires n < m && Executable(m, Init(n), acts)
    ensures ReadsTrue(Exec(m, Init(n), acts))
  {
    InitInv(m, n);
    RunKeepsInv(m, Init(n), acts);
    var s := Exec(m, Init(n), acts);
    if s.exits < |s.takes| {
      assert TicketAt(m, s, s.exits);
      if s.owner == s.next { SameResidue(m, s.exits, |s.takes|); }
    }
  }

  /** With as many tickets out as there are counter values the counters are equal again. */
  lemma {:induction false} LockedReadsTrueExactlyBelowModulus(m: nat, n: nat)
    requires m > 0
    ensures (forall acts :: Executable(m, Init(n), acts) ==> ReadsTrue(Exec(m, Init(n), acts))) <==> n < m
  {
    if n < m {
      forall acts | Executable(m, Init(n), acts) ensures ReadsTrue(Exec(m, Init(n), acts)) {
        LockedReadsTrue(m, n, acts);
      }
    } else {
      AllQueued(m, n, m);
      ResIsMod(m, 0);
      ResIsMod(m, m);
      var s := Exec(m, Init(n), TakeAll(m));
      assert !s.pc[0].Out? && s.owner == s.next;
    }
  }

  // ---- the plain spin lock is the specification

  /** The raw lock: one word, acquired by a CAS from released, released by its holder. */
  predicate RawExecutable(holder: Option<Task>, acts: seq<Action>)
    decreases |acts|
  {
    acts == [] ||
    match acts[0]
    case Take(_) => false
    case Enter(t) => holder.None? && RawExecutable(Some(t), acts[1..])
    case Exit(t) => holder == Some(t) && RawExecutable(None, acts[1..])
  }

  /** The acquisitions and releases of a run. */
  function Observed(acts: seq<Action>): seq<Action> {
    if acts == [] then []
    else if acts[0].Take? then Observed(acts[1..])
    else [acts[0]] + Observed(acts[1..])
  }

  ghost function Holder(s: State): Option<Task> {
    if |s.entries| > s.exits then Some(s.entries[|s.entries| - 1]) else None
  }

  lemma {:induction false} RefinesRawFrom(m: nat, s: State, acts: seq<Action>)
    requires m > 0 && Inv(m, s) && |s.pc| <= m && Executable(m, s, acts)
    ensures RawExecutable(Holder(s), Observed(acts))
    decreases |acts|
  {
    if acts != [] {
      KeepsInv(m, s, acts[0]);
      var s' := Apply(m, s, acts[0]);
      RefinesRawFrom(m, s', acts[1..]);
      match acts[0]
      case Take(_) =>
      case Enter(t) => EntrantIsOldest(m, s, t);
      case Exit(t) => KeepsExit(m, s, t); HolderIsInside(m, s, t);
    }
  }

  lemma HolderIsInside(m: nat, s: State, t: Task)
    requires m > 0 && Inv(m, s) && t < |s.pc| && s.pc[t].In?
    ensures Holder(s) == Some(t)
  {
    var i :| s.exits <= i < |s.takes| && s.takes[i] == t;
    assert TicketAt(m, s, i);
  }

  /** Every run of the ticket lock, its queueing hidden, is a run of the raw spin lock. */
  lemma {:induction false} RefinesRawLock(m: nat, n: nat, acts: seq<Action>)
    requires 0 < m && n <= m && Executable(m, Init(n), acts)
    ensures RawExecutable(None, Observed(acts))
  {
    InitInv(m, n);
    RefinesRawFrom(m, Init(n), acts);
  }
}
