/**
 What holds over every run of the scheduler and the mutexes: one thread inside a mutex,
 hand-over in order of arrival, turns of the run queue, and what -EINTR tells.
 */
module SchedulerRuns {
  import opened Common
  import opened Lists
  import opened Scheduler

  // ---------- every reachable state ----------

  ghost predicate Reaches(s: State, es: seq<Event>, r: State)
  {
    Initial(s) && (InitialInv(s); CanRun(s, es)) && r == After(s, es)
  }

  ghost predicate Reachable(r: State) { exists s, es :: Reaches(s, es, r) }

  lemma ReachableInv(r: State)
    requires Reachable(r)
    ensures Inv(r)
  {
    var s, es :| Reaches(s, es, r);
    InitialInv(s);
    AfterInv(s, es);
  }

  lemma AtMostOneQueue(r: State, t: Tid, p: QueueId, q: QueueId)
    requires Reachable(r) && p in r.queues && q in r.queues && t in r.queues[p].list && t in r.queues[q].list
    ensures p == q && t in r.threads && r.threads[t].wchan == Some(p)
  {
    hide Reachable;
    ReachableInv(r);
    QueueIsOk(r, p);
    QueueIsOk(r, q);
  }

  // A queue's size is its length, and no runnable or sleeping thread is lost: it is current
  // or on the queue its state calls for.
  lemma NoneLost(r: State, t: Tid)
    requires Reachable(r) && t in r.threads
    ensures Inv(r) && forall q :: q in r.queues ==> r.queues[q].size == |r.queues[q].list|
    ensures r.threads[t].state == Run ==> Running(r, t) || t in r.queues[RunQ].list
    ensures r.threads[t].state == Sleep || r.threads[t].state == SleepCancellable ==>
              exists q :: q in r.queues && q != RunQ && t in r.queues[q].list
    ensures r.threads[t].state == NoState || r.threads[t].state == Exited ==>
              !Running(r, t) && forall q :: q in r.queues ==> t !in r.queues[q].list
  {
    hide Reachable, Mutexes;
    ReachableInv(r);
    forall q | q in r.queues ensures QueueOk(r, q) {
      QueueIsOk(r, q);
    }
    assert Agree(r.threads[t], Running(r, t));
    if r.threads[t].wchan.Some? { assert QueueOk(r, r.threads[t].wchan.value); }
  }

  lemma OneInside(r: State, m: nat, t: Tid, u: Tid)
    requires Reachable(r) && m in r.mutexes
    ensures t in r.mutexes[m].inside ==> r.mutexes[m].holder == Some(t)
    ensures t in r.mutexes[m].inside && u in r.mutexes[m].inside ==> t == u
    ensures Inv(r) && (r.queues[MutexQ(m)].list != [] ==> r.mutexes[m].holder.Some?)
  {
    hide Reachable, Linked, Threads;
    ReachableInv(r);
    assert MutexOk(r, m);
  }

  // ---------- what the operations do to the queues ----------

  // Threads may have become runnable, but no mutex and no wait for one is touched.
  ghost predicate Calm(s: State, r: State)
  {
    && r.cur == s.cur && r.executing == s.executing && r.mutexes == s.mutexes && r.threads.Keys == s.threads.Keys
    && RunQ in s.queues && RunQ in r.queues && s.queues[RunQ].list <= r.queues[RunQ].list
    && (forall m :: MutexQ(m) in s.queues ==> MutexQ(m) in r.queues && r.queues[MutexQ(m)] == s.queues[MutexQ(m)])
    && (forall t :: t in s.threads ==> SameWait(s.threads[t], r.threads[t]))
  }

  lemma WakeupCalm(s: State, n: nat)
    requires Inv(s) && Other(n) in s.queues
    ensures Calm(s, Wakeup(s, Other(n)))
  {
    hide Linked, Threads, Mutexes;
    if s.queues[Other(n)].list != [] { DequeueLinked(s, Other(n)); }
  }

  lemma CalmTrans(s: State, r: State, w: State)
    requires Calm(s, r) && Calm(r, w)
    ensures Calm(s, w)
  {
    assert s.queues[RunQ].list <= w.queues[RunQ].list by {
      assert r.queues[RunQ].list == w.queues[RunQ].list[..|r.queues[RunQ].list|];
    }
  }

  lemma {:induction false} BroadcastCalm(s: State, n: nat)
    requires Inv(s) && Other(n) in s.queues
    ensures Calm(s, Broadcast(s, Other(n)))
    decreases |s.queues[Other(n)].list|
  {
    hide Inv, Calm, Linked;
    InvLinked(s);
    if s.queues[Other(n)].list == [] {
      CalmSelf(s);
    } else {
      var w := Wakeup(s, Other(n));
      WakeupKeeps(s, n);
      WakeupCalm(s, n);
      WakeupLinked(s, Other(n));
      BroadcastCalm(w, n);
      CalmTrans(s, w, Broadcast(s, Other(n)));
    }
  }

  lemma CalmSelf(s: State)
    requires Inv(s)
    ensures Calm(s, s)
  {
  }

  lemma InvLinked(s: State)
    requires Inv(s)
    ensures Shape(s) && Linked(s) && Threads(s)
  {
  }

  lemma SwitchParts(s: State)
    requires Linked(s) && RunQ in s.queues
    ensures var r, l := Switch(s), s.queues[RunQ].list;
            && r.mutexes == s.mutexes && r.queues.Keys == s.queues.Keys && r.threads.Keys == s.threads.Keys
            && (forall q :: q in s.queues && q != RunQ ==> r.queues[q] == s.queues[q])
            && (forall t :: t in s.threads ==> SameWait(s.threads[t], r.threads[t]))
            && if l == [] then r == s else r.queues[RunQ].list == l[1..] && r.cur == l[0] && r.executing
  {
    hide Linked;
    if s.queues[RunQ].list != [] { DequeueLinked(s, RunQ); }
  }

  // ---------- hand-over in order of arrival ----------

  // Event e makes the current thread wait for m.
  ghost predicate Arrives(s: State, e: Event, m: nat)
  {
    e.Lock? && e.m == m && m in s.mutexes && s.mutexes[m].holder.Some?
  }

  // Event e hands m over to the first waiter.
  ghost predicate Grants(s: State, e: Event, m: nat)
  {
    e == Unlock(m) && MutexQ(m) in s.queues && s.queues[MutexQ(m)].list != []
  }

  // Event e takes a thread out of the wait for m.
  ghost predicate Abandons(s: State, e: Event, m: nat)
  {
    && e.Cancel? && e.t in s.threads
    && s.threads[e.t].state == SleepCancellable && s.threads[e.t].wchan == Some(MutexQ(m))
  }

  // The wait queue of m after event e.
  ghost function Waiting(s: State, e: Event, m: nat): seq<Tid>
    requires MutexQ(m) in s.queues
  {
    var l := s.queues[MutexQ(m)].list;
    if Arrives(s, e, m) then l + [s.cur] else if Grants(s, e, m) then l[1..]
    else if Abandons(s, e, m) then Without(l, e.t) else l
  }

  lemma WaitStep(s: State, e: Event, m: nat)
    requires Inv(s) && Enabled(s, e) && m in s.mutexes
    ensures Inv(Next(s, e)) && m in Next(s, e).mutexes
    ensures Next(s, e).queues[MutexQ(m)].list == Waiting(s, e, m)
    ensures Grants(s, e, m) ==> Next(s, e).mutexes[m].holder == Some(s.queues[MutexQ(m)].list[0])
  {
    hide Inv, Linked, Threads, Wakeup, Broadcast, Slept, Yielded, Quit, Unlocked, Cancelled, Locked;
    NextKeeps(s, e);
    ShapeHolds(Next(s, e));
    InvLinked(s);
    match e
    case Lock(k, c) => WaitLock(s, k, c, m);
    case Unlock(k) => WaitUnlock(s, k, m);
    case SleepOn(n, c) => SleptParts(s, n, c);
    case WakeupOn(n) => WakeupCalm(s, n);
    case BroadcastOn(n) => BroadcastCalm(s, n);
    case Cancel(t) => WaitCancel(s, t, m);
    case Yield => YieldedParts(s);
    case Exit => QuitParts(s);
    case Spawn(t) =>
    case Return =>
    case Resume => SwitchParts(s);
  }

  lemma ShapeHolds(s: State)
    requires Inv(s)
    ensures forall m :: m in s.mutexes <==> MutexQ(m) in s.queues
  {
  }

  // No mutex and no wait for one is touched, and the run queue, after `added` has been put
  // at its end, has lost its first thread to the processor if it had one.
  ghost predicate Switched(s: State, r: State, added: seq<Tid>)
  {
    && RunQ in s.queues && RunQ in r.queues && r.mutexes == s.mutexes
    && (forall m :: MutexQ(m) in s.queues ==> MutexQ(m) in r.queues && r.queues[MutexQ(m)] == s.queues[MutexQ(m)])
    && var l := s.queues[RunQ].list + added;
       if l == [] then !r.executing && r.queues[RunQ].list == []
       else r.queues[RunQ].list == l[1..] && r.cur == l[0] && r.executing
  }

  lemma SleptParts(s: State, n: nat, cancellable: bool)
    requires Inv(s) && Enabled(s, SleepOn(n, cancellable))
    ensures Switched(s, Slept(s, n, cancellable), [])
  {
    hide Linked, Threads, Mutexes;
    BlockLinked(s, Other(n), Sleeping(n, cancellable));
    SwitchParts(Block(s, Other(n), Sleeping(n, cancellable)));
    assert s.queues[RunQ].list + [] == s.queues[RunQ].list;
  }

  lemma YieldedParts(s: State)
    requires Inv(s) && Enabled(s, Yield)
    ensures Switched(s, Yielded(s), [s.cur])
  {
    hide Linked, Threads, Mutexes;
    PreemptKeeps(s);
    SwitchParts(Preempt(s));
  }

  lemma QuitParts(s: State)
    requires Inv(s) && Enabled(s, Exit)
    ensures Switched(s, Quit(s), [])
  {
    hide Linked, Threads, Mutexes;
    EndedKeeps(s);
    SwitchParts(Ended(s));
    assert s.queues[RunQ].list + [] == s.queues[RunQ].list;
  }

  lemma WaitUnlock(s: State, k: nat, m: nat)
    requires Inv(s) && Enabled(s, Unlock(k)) && m in s.mutexes
    ensures MutexQ(m) in Unlocked(s, k).queues && m in Unlocked(s, k).mutexes
    ensures Unlocked(s, k).queues[MutexQ(m)].list == Waiting(s, Unlock(k), m)
    ensures Grants(s, Unlock(k), m) ==> Unlocked(s, k).mutexes[m].holder == Some(s.queues[MutexQ(m)].list[0])
  {
    hide Linked, Threads, Mutexes;
    WokenCall(s, k);
  }

  lemma WaitLock(s: State, k: nat, cancellable: bool, m: nat)
    requires Inv(s) && Enabled(s, Lock(k, cancellable)) && m in s.mutexes
    ensures MutexQ(m) in Locked(s, k, cancellable).queues
    ensures Locked(s, k, cancellable).queues[MutexQ(m)].list == Waiting(s, Lock(k, cancellable), m)
  {
    hide Linked, Threads, Mutexes;
    if s.mutexes[k].holder.Some? {
      BlockLinked(s, MutexQ(k), Locking(k, cancellable));
      SwitchParts(Block(s, MutexQ(k), Locking(k, cancellable)));
    }
  }

  lemma WaitCancel(s: State, t: Tid, m: nat)
    requires Inv(s) && Enabled(s, Cancel(t)) && m in s.mutexes
    ensures MutexQ(m) in Cancelled(s, t).queues
    ensures Cancelled(s, t).queues[MutexQ(m)].list == Waiting(s, Cancel(t), m)
  {
    hide Linked, Mutexes;
    assert Agree(s.threads[t], Running(s, t));
  }

  function WithoutLast(l: seq<Tid>, t: Tid): seq<Tid>
  {
    if l == [] then []
    else if l[|l| - 1] == t then l[..|l| - 1]
    else WithoutLast(l[..|l| - 1], t) + [l[|l| - 1]]
  }

  ghost function Noted(log: seq<Tid>, s: State, e: Event, m: nat): seq<Tid>
  {
    if Arrives(s, e, m) then log + [s.cur] else if Abandons(s, e, m) then WithoutLast(log, e.t) else log
  }

  ghost function Given(given: seq<Tid>, s: State, e: Event, m: nat): seq<Tid>
  {
    if Grants(s, e, m) then given + [s.queues[MutexQ(m)].list[0]] else given
  }

  // Those that came to wait for m over a run, in order, without the waits that were cancelled.
  ghost function Arrivals(log: seq<Tid>, s: State, es: seq<Event>, m: nat): seq<Tid>
    requires Inv(s) && CanRun(s, es)
    decreases |es|
  {
    if es == [] then log else
      NextKeeps(s, es[0]);
      Arrivals(Noted(log, s, es[0], m), Next(s, es[0]), es[1..], m)
  }

  // Those that m was handed over to over a run, in order.
  ghost function Grantees(given: seq<Tid>, s: State, es: seq<Event>, m: nat): seq<Tid>
    requires Inv(s) && CanRun(s, es)
    decreases |es|
  {
    if es == [] then given else
      NextKeeps(s, es[0]);
      Grantees(Given(given, s, es[0], m), Next(s, es[0]), es[1..], m)
  }

  // The waiters are served in the order of arrival, apart from cancelled ones: those served
  // so far and then those still waiting are exactly those that arrived.
  lemma {:induction false} InOrder(s: State, es: seq<Event>, m: nat, log: seq<Tid>, given: seq<Tid>)
    requires Inv(s) && CanRun(s, es) && m in s.mutexes && log == given + s.queues[MutexQ(m)].list
    ensures Inv(After(s, es)) && m in After(s, es).mutexes
    ensures Arrivals(log, s, es, m) == Grantees(given, s, es, m) + After(s, es).queues[MutexQ(m)].list
    decreases |es|
  {
    hide Inv, Next, Enabled, Linked, Threads, Noted, Given, Waiting;
    InvLinked(s);
    if es != [] {
      WaitStep(s, es[0], m);
      QueueIsOk(s, MutexQ(m));
      InOrderStep(s, es[0], m, log, given);
      InOrder(Next(s, es[0]), es[1..], m, Noted(log, s, es[0], m), Given(given, s, es[0], m));
    }
  }

  lemma InOrderStep(s: State, e: Event, m: nat, log: seq<Tid>, given: seq<Tid>)
    requires MutexQ(m) in s.queues && QueueOk(s, MutexQ(m)) && log == given + s.queues[MutexQ(m)].list
    ensures Noted(log, s, e, m) == Given(given, s, e, m) + Waiting(s, e, m)
  {
    if Abandons(s, e, m) {
      WithoutLastOfTwo(given, s.queues[MutexQ(m)].list, e.t);
    }
  }

  lemma {:induction false} WithoutLastOfTwo(g: seq<Tid>, l: seq<Tid>, t: Tid)
    requires NoDup(l) && t in l
    ensures WithoutLast(g + l, t) == g + Without(l, t)
  {
    var n := |l| - 1;
    assert (g + l)[..|g + l| - 1] == g + l[..n];
    if l[n] == t {
      WithoutAtEnd(l, t);
    } else {
      WithoutLastOfTwo(g, l[..n], t);
      WithoutBeforeEnd(l, t);
    }
  }

  lemma {:induction false} WithoutAtEnd(l: seq<Tid>, t: Tid)
    requires NoDup(l) && l != [] && l[|l| - 1] == t
    ensures Without(l, t) == l[..|l| - 1]
  {
    if |l| > 1 {
      WithoutAtEnd(l[1..], t);
      assert l[..|l| - 1] == [l[0]] + l[1..][..|l| - 2];
    }
  }

  lemma {:induction false} WithoutBeforeEnd(l: seq<Tid>, t: Tid)
    requires l != [] && l[|l| - 1] != t
    ensures Without(l, t) == Without(l[..|l| - 1], t) + [l[|l| - 1]]
  {
    var k := l[..|l| - 1];
    assert l == k + [l[|l| - 1]];
    if |l| > 1 {
      assert l[1..][..|l| - 2] == k[1..];
      if l[0] != t {
        WithoutBeforeEnd(l[1..], t);
      } else {
        assert l[1..] == k[1..] + [l[|l| - 1]];
      }
    }
  }

  // ---------- turns of the run queue ----------

  // Event e completes a sched_switch.
  ghost predicate Switches(s: State, e: Event)
  {
    var ready := RunQ in s.queues && s.queues[RunQ].list != [];
    match e
    case Lock(m, _) => m in s.mutexes && s.mutexes[m].holder.Some? && ready
    case SleepOn(_, _) => ready
    case Exit => ready
    case Yield => true
    case Resume => true
    case _ => false
  }

  // Thread t is on the run queue with n threads ahead of it.
  ghost predicate Ahead(s: State, t: Tid, n: nat)
  {
    RunQ in s.queues && n < |s.queues[RunQ].list| && s.queues[RunQ].list[n] == t
  }

  lemma TurnStep(s: State, e: Event, t: Tid, n: nat)
    requires Inv(s) && Enabled(s, e) && Ahead(s, t, n)
    ensures if !Switches(s, e) then Ahead(Next(s, e), t, n)
            else if n > 0 then Ahead(Next(s, e), t, n - 1)
            else Running(Next(s, e), t)
  {
    hide Linked, Mutexes, Wakeup, Broadcast, Slept, Yielded, Quit;
    match e
    case Lock(m, c) => TurnLock(s, m, c);
    case Unlock(m) => TurnUnlock(s, m);
    case SleepOn(i, c) => SleptParts(s, i, c);
    case WakeupOn(i) => WakeupCalm(s, i);
    case BroadcastOn(i) => BroadcastCalm(s, i);
    case Cancel(u) => assert Agree(s.threads[u], Running(s, u));
    case Yield => YieldedParts(s);
    case Exit => QuitParts(s);
    case Spawn(u) =>
    case Return =>
    case Resume => SwitchParts(s);
  }

  lemma TurnLock(s: State, m: nat, cancellable: bool)
    requires Inv(s) && Enabled(s, Lock(m, cancellable))
    ensures var r, l := Locked(s, m, cancellable), s.queues[RunQ].list;
            && RunQ in r.queues
            && if !Switches(s, Lock(m, cancellable)) then r.queues[RunQ].list == l
               else r.queues[RunQ].list == l[1..] && r.cur == l[0] && r.executing
  {
    hide Linked, Threads, Mutexes;
    if s.mutexes[m].holder.Some? {
      BlockLinked(s, MutexQ(m), Locking(m, cancellable));
      SwitchParts(Block(s, MutexQ(m), Locking(m, cancellable)));
    }
  }

  lemma TurnUnlock(s: State, m: nat)
    requires Inv(s) && Enabled(s, Unlock(m))
    ensures var r := Unlocked(s, m); RunQ in r.queues && s.queues[RunQ].list <= r.queues[RunQ].list
  {
    hide Linked, Threads, Mutexes;
    WokenCall(s, m);
  }

  ghost function SwitchCount(s: State, es: seq<Event>): nat
    requires Inv(s) && CanRun(s, es)
    decreases |es|
  {
    if es == [] then 0 else
      NextKeeps(s, es[0]);
      (if Switches(s, es[0]) then 1 else 0) + SwitchCount(Next(s, es[0]), es[1..])
  }

  // A thread with n ahead of it is still on the run queue, k places nearer, after k <= n
  // switches, and the next switch after n of them makes it current.
  lemma {:induction false} Turn(s: State, es: seq<Event>, t: Tid, n: nat)
    requires Inv(s) && CanRun(s, es) && Ahead(s, t, n) && SwitchCount(s, es) <= n
    ensures Ahead(After(s, es), t, n - SwitchCount(s, es))
    decreases |es|
  {
    hide Inv, Next, Enabled, Ahead, Switches, Running;
    if es != [] {
      NextKeeps(s, es[0]);
      TurnStep(s, es[0], t, n);
      Turn(Next(s, es[0]), es[1..], t, if Switches(s, es[0]) then n - 1 else n);
    }
  }

  lemma TurnComes(s: State, es: seq<Event>, e: Event, t: Tid, n: nat)
    requires Inv(s) && CanRun(s, es) && Ahead(s, t, n) && SwitchCount(s, es) == n
    requires Inv(After(s, es)) && Enabled(After(s, es), e) && Switches(After(s, es), e)
    ensures Running(Next(After(s, es), e), t)
  {
    hide Inv, Next, Enabled, Ahead, Switches, Running;
    Turn(s, es, t, n);
    TurnStep(After(s, es), e, t, 0);
  }

  // ---------- what -EINTR tells ----------

  // Thread t has left the wait for m and has not returned from its call.
  ghost predicate Leaving(s: State, t: Tid, m: nat)
  {
    t in s.threads && s.threads[t].call.Locking? && s.threads[t].call.mutex == m
        && s.threads[t].wchan != Some(MutexQ(m))
  }

  ghost predicate Holds(s: State, t: Tid, m: nat) { m in s.mutexes && s.mutexes[m].holder == Some(t) }

  // Until it returns, nothing gives it the mutex or takes the mutex from it.
  lemma LeavingStep(s: State, e: Event, t: Tid, m: nat)
    requires Inv(s) && Enabled(s, e) && m in s.mutexes && Leaving(s, t, m) && !(e == Return && s.cur == t)
    ensures Leaving(Next(s, e), t, m) && m in Next(s, e).mutexes && (Holds(Next(s, e), t, m) <==> Holds(s, t, m))
  {
    hide Linked, Threads, Mutexes, Wakeup, Broadcast, Yielded, Quit, Locked, Unlocked, Cancelled, Block;
    match e
    case Lock(k, c) => LeavingLock(s, k, c, t, m);
    case Unlock(k) => LeavingUnlock(s, k, t, m);
    case SleepOn(n, c) => LeavingBlock(s, Other(n), Sleeping(n, c), t, m);
    case WakeupOn(n) => WakeupCalm(s, n);
    case BroadcastOn(n) => BroadcastCalm(s, n);
    case Cancel(u) => LeavingCancel(s, u, t, m);
    case Yield => LeavingYield(s, t, m);
    case Exit => LeavingExit(s, t, m);
    case Spawn(u) =>
    case Return =>
    case Resume => SwitchParts(s);
  }

  lemma LeavingBlock(s: State, q: QueueId, call: Call, t: Tid, m: nat)
    requires Inv(s) && s.executing && q in s.queues && call != Outside && Leaving(s, t, m) && t != s.cur
    ensures Linked(Block(s, q, call)) && Leaving(Switch(Block(s, q, call)), t, m)
            && Switch(Block(s, q, call)).mutexes == s.mutexes
  {
    hide Linked, Threads, Mutexes;
    BlockLinked(s, q, call);
    SwitchParts(Block(s, q, call));
  }

  lemma LeavingLock(s: State, k: nat, cancellable: bool, t: Tid, m: nat)
    requires Inv(s) && Enabled(s, Lock(k, cancellable)) && m in s.mutexes && Leaving(s, t, m)
    ensures var r := Locked(s, k, cancellable);
            Leaving(r, t, m) && m in r.mutexes && (Holds(r, t, m) <==> Holds(s, t, m))
  {
    hide Linked, Threads, Mutexes;
    if s.mutexes[k].holder.Some? { LeavingBlock(s, MutexQ(k), Locking(k, cancellable), t, m); }
  }

  lemma LeavingUnlock(s: State, k: nat, t: Tid, m: nat)
    requires Inv(s) && Enabled(s, Unlock(k)) && m in s.mutexes && Leaving(s, t, m)
    ensures var r := Unlocked(s, k); Leaving(r, t, m) && m in r.mutexes && (Holds(r, t, m) <==> Holds(s, t, m))
  {
    hide Linked, Threads, Mutexes;
    WokenCall(s, k);
  }

  lemma LeavingCancel(s: State, u: Tid, t: Tid, m: nat)
    requires Inv(s) && Enabled(s, Cancel(u)) && m in s.mutexes && Leaving(s, t, m)
    ensures Leaving(Cancelled(s, u), t, m) && Cancelled(s, u).mutexes == s.mutexes
  {
    hide Linked, Mutexes;
    assert Agree(s.threads[t], Running(s, t)) && Agree(s.threads[u], Running(s, u));
  }

  lemma LeavingYield(s: State, t: Tid, m: nat)
    requires Inv(s) && Enabled(s, Yield) && Leaving(s, t, m)
    ensures Leaving(Yielded(s), t, m) && Yielded(s).mutexes == s.mutexes
  {
    hide Linked, Threads, Mutexes;
    PreemptKeeps(s);
    SwitchParts(Preempt(s));
  }

  lemma LeavingExit(s: State, t: Tid, m: nat)
    requires Inv(s) && Enabled(s, Exit) && Leaving(s, t, m)
    ensures Leaving(Quit(s), t, m) && Quit(s).mutexes == s.mutexes
  {
    hide Linked, Threads, Mutexes;
    EndedKeeps(s);
    SwitchParts(Ended(s));
  }

  // A waiter leaves the wait with the mutex if it is unlocked, and without if cancelled.
  lemma LeaveStep(s: State, e: Event, t: Tid, m: nat)
    requires Inv(s) && Enabled(s, e) && m in s.mutexes && t in s.threads && s.threads[t].wchan == Some(MutexQ(m))
    requires t in Next(s, e).threads && Next(s, e).threads[t].wchan != Some(MutexQ(m))
    ensures Holds(Next(s, e), t, m) <==> e == Unlock(m)
    ensures e == Unlock(m) || e == Cancel(t)
  {
    hide Linked, Threads, Mutexes, Next;
    WaitStep(s, e, m);
    QueueIsOk(s, MutexQ(m));
    QueueIsOk(Next(s, e), MutexQ(m));
    var l := s.queues[MutexQ(m)].list;
    assert t in l && t !in Waiting(s, e, m);
    if Grants(s, e, m) {
      assert l == [l[0]] + l[1..];
    } else {
      LeftByCancel(s, e, t, m);
    }
  }

  lemma LeftByCancel(s: State, e: Event, t: Tid, m: nat)
    requires Inv(s) && Enabled(s, e) && m in s.mutexes && t in s.threads && s.threads[t].wchan == Some(MutexQ(m))
    requires NoDup(s.queues[MutexQ(m)].list) && t in s.queues[MutexQ(m)].list && t !in Waiting(s, e, m)
    requires !Grants(s, e, m)
    ensures e == Cancel(t) && !Holds(Next(s, e), t, m)
  {
    hide Linked, Threads, Mutexes;
    assert Abandons(s, e, m);
    QueueOfOther(s, e, t, m);
    NotHolder(s, t, m);
  }

  lemma QueueOfOther(s: State, e: Event, t: Tid, m: nat)
    requires Inv(s) && Abandons(s, e, m) && m in s.mutexes
    requires NoDup(s.queues[MutexQ(m)].list) && t in s.queues[MutexQ(m)].list && t !in Waiting(s, e, m)
    ensures e == Cancel(t)
  {
    hide Threads, Mutexes;
    QueueIsOk(s, MutexQ(m));
    WithoutIs(s.queues[MutexQ(m)].list, e.t);
  }

  lemma NotHolder(s: State, t: Tid, m: nat)
    requires Inv(s) && m in s.mutexes && t in s.threads && s.threads[t].wchan == Some(MutexQ(m))
    ensures s.mutexes[m].holder != Some(t)
  {
    hide Linked, Threads;
    assert MutexOk(s, m);
  }

  // Thread t does not return during the run.
  ghost predicate StaysIn(s: State, es: seq<Event>, t: Tid)
    requires Inv(s) && CanRun(s, es)
    decreases |es|
  {
    es == [] || (!(es[0] == Return && s.cur == t) && (NextKeeps(s, es[0]); StaysIn(Next(s, es[0]), es[1..], t)))
  }

  lemma {:induction false} LeavingRun(s: State, es: seq<Event>, t: Tid, m: nat)
    requires Inv(s) && CanRun(s, es) && StaysIn(s, es, t) && m in s.mutexes && Leaving(s, t, m)
    ensures Leaving(After(s, es), t, m) && (Holds(After(s, es), t, m) <==> Holds(s, t, m))
    decreases |es|
  {
    hide Inv, Enabled, Next, Leaving, Holds;
    if es != [] {
      NextKeeps(s, es[0]);
      LeavingStep(s, es[0], t, m);
      LeavingRun(Next(s, es[0]), es[1..], t, m);
    }
  }

  // Whatever happens between leaving the wait and returning, the caller of a blocked lock
  // returns with the mutex exactly if it left the wait by an unlock, and a return of -EINTR
  // tells only that it has been cancelled at some time.
  lemma HandedOver(s: State, e: Event, es: seq<Event>, t: Tid, m: nat)
    requires Inv(s) && Enabled(s, e) && m in s.mutexes && t in s.threads && s.threads[t].wchan == Some(MutexQ(m))
    requires Inv(Next(s, e)) && CanRun(Next(s, e), es) && StaysIn(Next(s, e), es, t)
    requires m in Next(s, e).mutexes && Leaving(Next(s, e), t, m)
    ensures Holds(After(Next(s, e), es), t, m) <==> e == Unlock(m)
    ensures e == Unlock(m) || e == Cancel(t)
  {
    hide Inv, Enabled, Next;
    LeaveStep(s, e, t, m);
    LeavingRun(Next(s, e), es, t, m);
  }

  lemma Prepend(s: State, e: Event, r: State, es: seq<Event>)
    requires Inv(s) && Enabled(s, e) && r == Next(s, e) && Inv(r) && CanRun(r, es)
    ensures CanRun(s, [e] + es) && After(s, [e] + es) == After(r, es)
  {
    assert ([e] + es)[1..] == es;
  }

  // Two threads, 0 and 1, and mutex 0.
  function Two(cur: Tid, a: Thread, b: Thread, ready: seq<Tid>, waiting: seq<Tid>, x: Mutex): State
  {
    State(cur, true, map[0 := a, 1 := b], map[RunQ := Queue(ready, |ready|), MutexQ(0) := Queue(waiting, |waiting|)],
          map[0 := x])
  }

  const CURRENT := Thread(None, Run, false, Outside)
  const READY := Thread(Some(RunQ), Run, false, Outside)

  function Stage(i: nat): State
  {
    if i == 0 then State(0, true, map[0 := CURRENT], map[RunQ := Queue([], 0), MutexQ(0) := Queue([], 0)],
                         map[0 := Mutex(None, {})])
    else if i == 1 then Two(0, CURRENT, READY, [1], [], Mutex(None, {}))
    else if i == 2 then Two(0, CURRENT, READY, [1], [], Mutex(Some(0), {0}))
    else if i == 3 then Two(1, READY, CURRENT, [0], [], Mutex(Some(0), {0}))
    else if i == 4 then
      Two(0, CURRENT, Thread(Some(MutexQ(0)), SleepCancellable, false, Locking(0, true)), [], [1], Mutex(Some(0), {0}))
    else if i == 5 then Two(0, CURRENT, Thread(Some(RunQ), Run, false, Locking(0, true)), [1], [], Mutex(Some(1), {}))
    else if i == 6 then Two(0, CURRENT, Thread(Some(RunQ), Run, true, Locking(0, true)), [1], [], Mutex(Some(1), {}))
    else Two(1, READY, Thread(None, Run, true, Locking(0, true)), [0], [], Mutex(Some(1), {}))
  }

  lemma Stage0()
    ensures Initial(Stage(0)) && Inv(Stage(0)) && Enabled(Stage(0), Spawn(1)) && Next(Stage(0), Spawn(1)) == Stage(1)
  {
    InitialInv(Stage(0));
    hide Inv, Linked, Threads, Mutexes;
    var r := Next(Stage(0), Spawn(1));
    assert [] + [1] == [1];
    assert r.threads == Stage(1).threads && r.queues == Stage(1).queues;
  }

  lemma Stage1()
    requires Inv(Stage(1))
    ensures Enabled(Stage(1), Lock(0, false)) && Next(Stage(1), Lock(0, false)) == Stage(2)
  {
    hide Inv, Linked, Threads, Mutexes;
    assert {} + {0} == {0};
    assert Next(Stage(1), Lock(0, false)).mutexes == Stage(2).mutexes;
  }

  lemma Stage2()
    requires Inv(Stage(2))
    ensures Enabled(Stage(2), Yield) && Next(Stage(2), Yield) == Stage(3)
  {
    hide Inv, Linked, Threads, Mutexes;
    PreemptKeeps(Stage(2));
    InvLinked(Preempt(Stage(2)));
    assert [1] + [0] == [1, 0] && [1, 0][1..] == [0];
    var r := Next(Stage(2), Yield);
    assert r.threads == Stage(3).threads && r.queues == Stage(3).queues;
  }

  lemma Stage3()
    requires Inv(Stage(3))
    ensures Enabled(Stage(3), Lock(0, true)) && Next(Stage(3), Lock(0, true)) == Stage(4)
  {
    hide Inv, Linked, Threads, Mutexes;
    BlockLinked(Stage(3), MutexQ(0), Locking(0, true));
    assert [] + [1] == [1] && [0][1..] == [];
    var r := Next(Stage(3), Lock(0, true));
    assert r.threads == Stage(4).threads && r.queues == Stage(4).queues;
  }

  lemma Stage4()
    requires Inv(Stage(4))
    ensures Enabled(Stage(4), Unlock(0)) && Next(Stage(4), Unlock(0)) == Stage(5)
  {
    hide Inv, Linked, Threads, Mutexes;
    InvLinked(Stage(4));
    assert [] + [1] == [1] && [1][1..] == [] && {0} - {0} == {};
    var r := Next(Stage(4), Unlock(0));
    assert r.threads == Stage(5).threads && r.queues == Stage(5).queues && r.mutexes == Stage(5).mutexes;
  }

  lemma Stage5()
    requires Inv(Stage(5))
    ensures Enabled(Stage(5), Cancel(1)) && Next(Stage(5), Cancel(1)) == Stage(6)
  {
    hide Inv, Linked, Threads, Mutexes;
    assert Next(Stage(5), Cancel(1)).threads == Stage(6).threads;
  }

  lemma Stage6()
    requires Inv(Stage(6))
    ensures Enabled(Stage(6), Yield) && Next(Stage(6), Yield) == Stage(7)
  {
    hide Inv, Linked, Threads, Mutexes;
    PreemptKeeps(Stage(6));
    InvLinked(Preempt(Stage(6)));
    assert [1] + [0] == [1, 0] && [1, 0][1..] == [0];
    var r := Next(Stage(6), Yield);
    assert r.threads == Stage(7).threads && r.queues == Stage(7).queues;
  }

  // kmutex_lock_cancellable can return -EINTR to a caller that holds the mutex.
  lemma EintrWhileHolding()
    ensures var r := Stage(7);
            Reachable(r) && Inv(r) && r.executing && r.threads[r.cur].call == Locking(0, true)
            && Interrupted(r) && Holds(r, r.cur, 0)
  {
    hide Inv, Next, Enabled, Stage, CanRun, After, Initial;
    Stage0(); NextKeeps(Stage(0), Spawn(1));
    Stage1(); NextKeeps(Stage(1), Lock(0, false));
    Stage2(); NextKeeps(Stage(2), Yield);
    Stage3(); NextKeeps(Stage(3), Lock(0, true));
    Stage4(); NextKeeps(Stage(4), Unlock(0));
    Stage5(); NextKeeps(Stage(5), Cancel(1));
    Stage6(); NextKeeps(Stage(6), Yield);
    LastStage();
    var es := [];
    Prepend(Stage(6), Yield, Stage(7), es);
    es := [Yield] + es;
    Prepend(Stage(5), Cancel(1), Stage(6), es);
    es := [Cancel(1)] + es;
    Prepend(Stage(4), Unlock(0), Stage(5), es);
    es := [Unlock(0)] + es;
    Prepend(Stage(3), Lock(0, true), Stage(4), es);
    es := [Lock(0, true)] + es;
    Prepend(Stage(2), Yield, Stage(3), es);
    es := [Yield] + es;
    Prepend(Stage(1), Lock(0, false), Stage(2), es);
    es := [Lock(0, false)] + es;
    Prepend(Stage(0), Spawn(1), Stage(1), es);
    assert Reaches(Stage(0), [Spawn(1)] + es, Stage(7));
  }

  lemma LastStage()
    requires Inv(Stage(7))
    ensures var r := Stage(7);
            && Shape(r) && r.executing && r.threads[r.cur].call == Locking(0, true) && Interrupted(r)
               && Holds(r, r.cur, 0)
            && CanRun(r, []) && After(r, []) == r
  {
    hide Linked, Threads, Mutexes;
  }
}
