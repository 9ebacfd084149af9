/**
 Threads, queues and mutexes (kernel/proc/sched.c, kernel/proc/kmutex.c), as a state machine.

 A thread that sleeps in the middle of a call goes on when it is switched in again, so a
 call that blocks is two events: the one that puts the thread to sleep and, later, the
 return. A queue is written from its tq_list.l_prev end, so its first thread is the next
 one out and list_insert_head appends. While sched_switch waits for an interrupt no thread
 runs; interrupts may wake threads that sleep on a queue other than a mutex's at any time.
 */
module Scheduler {
  import opened Common
  import opened Lists

  type Tid = nat

  datatype QueueId = RunQ | MutexQ(mutex: nat) | Other(id: nat)

  datatype ThreadState = NoState | Run | Sleep | SleepCancellable | Exited

  // The blocking call a thread is in.
  datatype Call = Outside | Sleeping(id: nat, cancellable: bool) | Locking(mutex: nat, cancellable: bool)

  datatype Thread = Thread(wchan: Option<QueueId>, state: ThreadState, cancelled: bool, call: Call)

  datatype Queue = Queue(list: seq<Tid>, size: int)

  // `inside` are the threads that got the mutex from a call that returned, and have not
  // unlocked it since; all else are variables and fields of the source.
  datatype Mutex = Mutex(holder: Option<Tid>, inside: set<Tid>)

  datatype State = State(cur: Tid, executing: bool, threads: map<Tid, Thread>, queues: map<QueueId, Queue>,
                         mutexes: map<nat, Mutex>)

  // ---------- queue operations ----------

  // ktqueue_enqueue
  function Enqueue(s: State, q: QueueId, t: Tid): State
    requires q in s.queues && t in s.threads
  {
    s.(queues := s.queues[q := Queue(s.queues[q].list + [t], s.queues[q].size + 1)],
       threads := s.threads[t := s.threads[t].(wchan := Some(q))])
  }

  // ktqueue_dequeue of a queue that is not empty
  function Dequeue(s: State, q: QueueId): State
    requires q in s.queues && s.queues[q].list != [] && s.queues[q].list[0] in s.threads
  {
    var t := s.queues[q].list[0];
    s.(queues := s.queues[q := Queue(s.queues[q].list[1..], s.queues[q].size - 1)],
       threads := s.threads[t := s.threads[t].(wchan := None)])
  }

  // ktqueue_remove
  function Remove(s: State, q: QueueId, t: Tid): State
    requires q in s.queues && t in s.threads
  {
    s.(queues := s.queues[q := Queue(Without(s.queues[q].list, t), s.queues[q].size - 1)],
       threads := s.threads[t := s.threads[t].(wchan := None)])
  }

  ghost predicate Shape(s: State)
  {
    s.cur in s.threads && RunQ in s.queues && forall m :: m in s.mutexes <==> MutexQ(m) in s.queues
  }

  // The threads on a queue are those whose wchan names it, and its size is their number.
  ghost predicate QueueOk(s: State, q: QueueId)
    requires q in s.queues
  {
    && NoDup(s.queues[q].list) && s.queues[q].size == |s.queues[q].list|
    && forall t :: t in s.queues[q].list <==> t in s.threads && s.threads[t].wchan == Some(q)
  }

  ghost predicate Linked(s: State)
  {
    && (forall q :: q in s.queues ==> QueueOk(s, q))
    && (forall t :: t in s.threads && s.threads[t].wchan.Some? ==> s.threads[t].wchan.value in s.queues)
  }

  // ---------- what the queue operations keep ----------

  lemma EnqueueLinked(s: State, q: QueueId, t: Tid)
    requires Linked(s) && q in s.queues && t in s.threads && s.threads[t].wchan.None?
    ensures Linked(Enqueue(s, q, t))
  {
    hide QueueOk;
    forall p | p in s.queues ensures QueueOk(Enqueue(s, q, t), p) {
      assert QueueOk(s, p);
      if p == q {
        EnqueuedHere(s, q, t);
      } else {
        EnqueuedElsewhere(s, q, t, p);
      }
    }
  }

  lemma EnqueuedHere(s: State, q: QueueId, t: Tid)
    requires q in s.queues && t in s.threads && s.threads[t].wchan.None? && QueueOk(s, q)
    ensures QueueOk(Enqueue(s, q, t), q)
  {
    var l := s.queues[q].list;
    assert t !in l;
    assert forall u :: u in l + [t] <==> u in l || u == t;
  }

  lemma EnqueuedElsewhere(s: State, q: QueueId, t: Tid, p: QueueId)
    requires q in s.queues && p in s.queues && p != q && t in s.threads && s.threads[t].wchan.None? && QueueOk(s, p)
    ensures QueueOk(Enqueue(s, q, t), p)
  {
    assert Enqueue(s, q, t).queues[p] == s.queues[p];
  }

  lemma DequeueLinked(s: State, q: QueueId)
    requires Linked(s) && q in s.queues && s.queues[q].list != []
    ensures s.queues[q].list[0] in s.threads && s.threads[s.queues[q].list[0]].wchan == Some(q) && Linked(Dequeue(s, q))
  {
    var l := s.queues[q].list;
    assert QueueOk(s, q);
    assert l[0] in l && l[0] !in l[1..];
    assert forall u :: u in l <==> u == l[0] || u in l[1..];
    forall p | p in s.queues ensures QueueOk(Dequeue(s, q), p) {
      assert QueueOk(s, p);
    }
  }

  lemma RemoveLinked(s: State, q: QueueId, t: Tid)
    requires Linked(s) && q in s.queues && t in s.threads && s.threads[t].wchan == Some(q)
    ensures Linked(Remove(s, q, t))
  {
    assert QueueOk(s, q);
    WithoutIs(s.queues[q].list, t);
    forall p | p in s.queues ensures QueueOk(Remove(s, q, t), p) {
      assert QueueOk(s, p);
    }
  }

  // ---------- events ----------

  // sched_make_runnable
  function MakeRunnable(s: State, t: Tid): State
    requires RunQ in s.queues && t in s.threads
  {
    Enqueue(s.(threads := s.threads[t := s.threads[t].(state := Run)]), RunQ, t)
  }

  // The end of sched_switch: the next runnable thread is switched in.
  ghost function Dispatch(s: State): State
    requires Linked(s) && RunQ in s.queues && s.queues[RunQ].list != []
  {
    DequeueLinked(s, RunQ);
    Dequeue(s, RunQ).(cur := s.queues[RunQ].list[0], executing := true)
  }

  // sched_switch, up to waiting for an interrupt
  ghost function Switch(s: State): State
    requires Linked(s) && RunQ in s.queues
  {
    if s.queues[RunQ].list == [] then s else Dispatch(s)
  }

  // The current thread enters queue q in the given call, before it switches.
  function Block(s: State, q: QueueId, call: Call): State
    requires q in s.queues && s.cur in s.threads && call != Outside
  {
    Enqueue(s.(executing := false,
               threads := s.threads[s.cur := s.threads[s.cur].(call := call,
                                                               state := if call.cancellable then SleepCancellable
                                                                   else Sleep)]),
            q, s.cur)
  }

  // sched_wakeup_on
  ghost function Wakeup(s: State, q: QueueId): State
    requires Linked(s) && q in s.queues && RunQ in s.queues
  {
    if s.queues[q].list == [] then s else
      DequeueLinked(s, q);
      MakeRunnable(Dequeue(s, q), s.queues[q].list[0])
  }

  lemma WakeupLinked(s: State, q: QueueId)
    requires Linked(s) && q in s.queues && RunQ in s.queues
    ensures Linked(Wakeup(s, q)) && Wakeup(s, q).queues.Keys == s.queues.Keys
  {
    if s.queues[q].list != [] {
      DequeueLinked(s, q);
      var t, d := s.queues[q].list[0], Dequeue(s, q);
      var e := d.(threads := d.threads[t := d.threads[t].(state := Run)]);
      StateLinked(d, e);
      EnqueueLinked(e, RunQ, t);
    }
  }

  // Being linked is about queues and wchan alone.
  lemma StateLinked(s: State, r: State)
    requires Linked(s) && r.queues == s.queues && r.threads.Keys == s.threads.Keys
    requires forall t :: t in s.threads ==> r.threads[t].wchan == s.threads[t].wchan
    ensures Linked(r)
  {
    forall q | q in r.queues ensures QueueOk(r, q) {
      assert QueueOk(s, q);
    }
  }

  // sched_broadcast_on
  ghost function Broadcast(s: State, q: QueueId): State
    requires Linked(s) && q in s.queues && RunQ in s.queues && q != RunQ
    decreases |s.queues[q].list|
  {
    if s.queues[q].list == [] then s else
      WakeupLinked(s, q);
      Broadcast(Wakeup(s, q), q)
  }

  datatype Event =
    | Lock(m: nat, cancellable: bool)
    | Unlock(m: nat)
    | SleepOn(id: nat, cancellable: bool)
    | WakeupOn(id: nat)
    | BroadcastOn(id: nat)
    | Cancel(t: Tid)
    | Yield
    | Exit
    | Return
    | Resume
    | Spawn(t: Tid)

  // sched_switch waits for an interrupt, and there is a thread to run.
  ghost predicate Idle(s: State) { !s.executing && RunQ in s.queues && |s.queues[RunQ].list| > 0 }

  // Which events can happen: what the callers owe (the assertions at the head of the
  // functions) and who may act.
  ghost predicate Enabled(s: State, e: Event)
    requires Shape(s)
  {
    var free := s.executing && s.threads[s.cur].call == Outside;
    match e
    case Lock(m, _) => free && m in s.mutexes && s.mutexes[m].holder != Some(s.cur)
    case Unlock(m) => free && m in s.mutexes && s.mutexes[m].holder == Some(s.cur)
    case SleepOn(n, _) => free && Other(n) in s.queues
    case WakeupOn(n) => Other(n) in s.queues
    case BroadcastOn(n) => Other(n) in s.queues
    case Cancel(t) => t in s.threads && s.threads[t].state != NoState && s.threads[t].state != Exited
    case Yield => free
    case Exit => free
    case Spawn(t) => free && t !in s.threads
    case Return => s.executing && s.threads[s.cur].call != Outside
    case Resume => Idle(s)
  }

  // ---------- the invariant ----------

  // How a thread's state, queue and call go together.
  ghost predicate Agree(r: Thread, running: bool)
  {
    match r.state
    case Run => running == r.wchan.None? && (r.wchan.Some? ==> r.wchan.value == RunQ)
    case Sleep => !running && r.wchan.Some? && SleepsIn(r.wchan.value, r.call, false)
    case SleepCancellable => !running && r.wchan.Some? && SleepsIn(r.wchan.value, r.call, true)
    case _ => !running && r.wchan.None? && r.call == Outside
  }

  ghost predicate SleepsIn(q: QueueId, call: Call, cancellable: bool)
  {
    match q
    case RunQ => false
    case MutexQ(m) => call == Locking(m, cancellable)
    case Other(n) => call == Sleeping(n, cancellable)
  }

  ghost predicate Running(s: State, t: Tid) { s.executing && t == s.cur }

  ghost predicate Threads(s: State) { forall t :: t in s.threads ==> Agree(s.threads[t], Running(s, t)) }

  // A thread that has left the wait queue of a mutex but not returned yet holds the mutex,
  // or its wait was cancelled.
  ghost predicate Settled(r: Thread, m: nat, holds: bool)
  {
    r.call.Locking? && r.call.mutex == m && r.wchan != Some(MutexQ(m)) ==> holds || (r.call.cancellable && r.cancelled)
  }

  ghost predicate MutexOk(s: State, m: nat)
    requires m in s.mutexes && MutexQ(m) in s.queues
  {
    var h := s.mutexes[m].holder;
    && (s.queues[MutexQ(m)].list != [] ==> h.Some?)
    && (h.Some? ==> h.value in s.threads && s.threads[h.value].wchan != Some(MutexQ(m)))
    && (forall t :: t in s.threads ==> Settled(s.threads[t], m, h == Some(t)))
    && (forall t :: t in s.mutexes[m].inside ==> h == Some(t))
  }

  ghost predicate Mutexes(s: State)
    requires Shape(s)
  {
    && (forall m :: m in s.mutexes ==> MutexOk(s, m))
    && forall t :: t in s.threads && s.threads[t].call.Locking? ==> s.threads[t].call.mutex in s.mutexes
  }

  ghost predicate Inv(s: State) { Shape(s) && Linked(s) && Threads(s) && Mutexes(s) }

  // ---------- what blocking, waking and switching keep ----------

  // Nothing that the mutexes depend on has changed.
  ghost predicate MutexFrame(s: State, r: State)
  {
    && r.mutexes == s.mutexes && s.threads.Keys <= r.threads.Keys
    && (forall m :: MutexQ(m) in s.queues ==> MutexQ(m) in r.queues && r.queues[MutexQ(m)] == s.queues[MutexQ(m)])
    && (forall t :: t in r.threads ==>
        if t in s.threads then SameWait(s.threads[t], r.threads[t]) else r.threads[t].call == Outside)
  }

  ghost predicate SameWait(a: Thread, b: Thread)
  {
    && a.call == b.call && (a.cancelled ==> b.cancelled)
    && forall m :: a.wchan == Some(MutexQ(m)) <==> b.wchan == Some(MutexQ(m))
  }

  lemma MutexFrameKeeps(s: State, r: State)
    requires Shape(s) && Shape(r) && Mutexes(s) && MutexFrame(s, r)
    ensures Mutexes(r)
  {
    forall m | m in r.mutexes ensures MutexOk(r, m) {
      assert MutexOk(s, m);
      forall t | t in r.threads ensures Settled(r.threads[t], m, r.mutexes[m].holder == Some(t)) {
        assert t in s.threads ==> Settled(s.threads[t], m, s.mutexes[m].holder == Some(t));
      }
    }
  }

  // One thread has changed.
  lemma ThreadsUpdate(s: State, r: State, t: Tid)
    requires Threads(s) && t in r.threads && r.threads == s.threads[t := r.threads[t]]
    requires forall u :: u != t ==> Running(s, u) == Running(r, u)
    requires Agree(r.threads[t], Running(r, t))
    ensures Threads(r)
  {
    hide Agree, Running;
  }

  lemma DispatchKeeps(s: State)
    requires Inv(s) && !s.executing && |s.queues[RunQ].list| > 0
    ensures Inv(Dispatch(s))
  {
    hide Linked, MutexOk;
    DequeueLinked(s, RunQ);
    StateLinked(Dequeue(s, RunQ), Dispatch(s));
    MutexFrameKeeps(s, Dispatch(s));
    ThreadsUpdate(s, Dispatch(s), s.queues[RunQ].list[0]);
  }

  lemma SwitchKeeps(s: State)
    requires Inv(s) && !s.executing
    ensures Inv(Switch(s))
  {
    if s.queues[RunQ].list != [] {
      DispatchKeeps(s);
    }
  }

  lemma BlockLinked(s: State, q: QueueId, call: Call)
    requires Inv(s) && s.executing && q in s.queues && call != Outside
    ensures Linked(Block(s, q, call))
  {
    assert Agree(s.threads[s.cur], true);
    var r := s.(executing := false,
                threads := s.threads[s.cur := s.threads[s.cur].(call := call,
                                                               state := if call.cancellable then SleepCancellable
                                                                   else Sleep)]);
    StateLinked(s, r);
    EnqueueLinked(r, q, s.cur);
  }

  lemma BlockKeeps(s: State, q: QueueId, call: Call)
    requires Inv(s) && s.executing && q in s.queues && call != Outside && SleepsIn(q, call, call.cancellable)
    requires s.threads[s.cur].call == Outside
    requires call.Locking? ==> s.mutexes[call.mutex].holder.Some? && s.mutexes[call.mutex].holder != Some(s.cur)
    ensures Inv(Block(s, q, call))
  {
    hide Linked, MutexOk;
    BlockLinked(s, q, call);
    var r := Block(s, q, call);
    ThreadsUpdate(s, r, s.cur);
    forall m | m in r.mutexes ensures MutexOk(r, m) {
      BlockMutex(s, q, call, m);
    }
  }

  lemma BlockMutex(s: State, q: QueueId, call: Call, m: nat)
    requires Shape(s) && m in s.mutexes && MutexOk(s, m) && q in s.queues && call != Outside
    requires SleepsIn(q, call, call.cancellable)
    requires s.threads[s.cur].wchan.None?
    requires call.Locking? && call.mutex == m ==> s.mutexes[m].holder.Some? && s.mutexes[m].holder != Some(s.cur)
    ensures MutexOk(Block(s, q, call), m)
  {
    hide Settled;
    var r := Block(s, q, call);
    assert Settled(r.threads[s.cur], m, r.mutexes[m].holder == Some(s.cur)) by {
      BlockSettled(r.threads[s.cur], q, call, m, r.mutexes[m].holder == Some(s.cur));
    }
  }

  lemma BlockSettled(r: Thread, q: QueueId, call: Call, m: nat, holds: bool)
    requires r.call == call && r.wchan == Some(q) && call != Outside && SleepsIn(q, call, call.cancellable)
    ensures Settled(r, m, holds)
  {
  }

  // A sleeping thread becomes runnable, taken off the front of its queue.
  lemma WakeupThreads(s: State, q: QueueId)
    requires Inv(s) && q in s.queues && q != RunQ
    ensures Threads(Wakeup(s, q))
  {
    hide Linked, Mutexes;
    if s.queues[q].list != [] {
      DequeueLinked(s, q);
      ThreadsUpdate(s, Wakeup(s, q), s.queues[q].list[0]);
    }
  }

  lemma WakeupKeeps(s: State, n: nat)
    requires Inv(s) && Other(n) in s.queues
    ensures Inv(Wakeup(s, Other(n)))
  {
    hide Linked, Mutexes, Threads;
    WakeupThreads(s, Other(n));
    WakeupLinked(s, Other(n));
    if s.queues[Other(n)].list != [] {
      DequeueLinked(s, Other(n));
      MutexFrameKeeps(s, Wakeup(s, Other(n)));
    }
  }

  lemma {:induction false} BroadcastKeeps(s: State, n: nat)
    requires Inv(s) && Other(n) in s.queues
    ensures Inv(Broadcast(s, Other(n)))
    decreases |s.queues[Other(n)].list|
  {
    hide Linked, Mutexes, Threads;
    if s.queues[Other(n)].list != [] {
      WakeupKeeps(s, n);
      WakeupLinked(s, Other(n));
      BroadcastKeeps(Wakeup(s, Other(n)), n);
    }
  }

  // ---------- the events ----------

  // kmutex_lock and kmutex_lock_cancellable, up to the return of a call that blocks
  ghost function Locked(s: State, m: nat, cancellable: bool): State
    requires Inv(s) && Enabled(s, Lock(m, cancellable))
  {
    if s.mutexes[m].holder.None?
    then s.(mutexes := s.mutexes[m := Mutex(Some(s.cur), s.mutexes[m].inside + {s.cur})])
    else BlockLinked(s, MutexQ(m), Locking(m, cancellable)); Switch(Block(s, MutexQ(m), Locking(m, cancellable)))
  }

  lemma LockKeeps(s: State, m: nat, cancellable: bool)
    requires Inv(s) && Enabled(s, Lock(m, cancellable))
    ensures Inv(Locked(s, m, cancellable))
  {
    if s.mutexes[m].holder.None? {
      TakeFree(s, m);
    } else {
      BlockKeeps(s, MutexQ(m), Locking(m, cancellable));
      SwitchKeeps(Block(s, MutexQ(m), Locking(m, cancellable)));
    }
  }

  lemma TakeFree(s: State, m: nat)
    requires Inv(s) && s.executing && m in s.mutexes && s.mutexes[m].holder.None?
    ensures Inv(s.(mutexes := s.mutexes[m := Mutex(Some(s.cur), s.mutexes[m].inside + {s.cur})]))
  {
    hide Linked, Settled;
    var r := s.(mutexes := s.mutexes[m := Mutex(Some(s.cur), s.mutexes[m].inside + {s.cur})]);
    StateLinked(s, r);
    assert Agree(s.threads[s.cur], Running(s, s.cur));
    forall k | k in r.mutexes ensures MutexOk(r, k) {
      assert MutexOk(s, k);
      forall t | t in r.threads ensures Settled(r.threads[t], k, r.mutexes[k].holder == Some(t)) {
        assert Settled(s.threads[t], k, s.mutexes[k].holder == Some(t));
        HoldsSettles(s.threads[t], k);
      }
    }
  }

  lemma HoldsSettles(r: Thread, m: nat)
    ensures Settled(r, m, true) && (Settled(r, m, false) ==> forall h :: Settled(r, m, h))
  {
  }

  // kmutex_unlock: the mutex goes straight to the thread that has waited longest.
  ghost function Unlocked(s: State, m: nat): State
    requires Inv(s) && Enabled(s, Unlock(m))
  {
    var waiting := s.queues[MutexQ(m)];
    assert QueueOk(s, MutexQ(m));
    Wakeup(s, MutexQ(m)).(mutexes := s.mutexes[m := Mutex(if waiting.size != 0 then Some(waiting.list[0]) else None,
                                                         s.mutexes[m].inside - {s.cur})])
  }

  lemma UnlockKeeps(s: State, m: nat)
    requires Inv(s) && Enabled(s, Unlock(m))
    ensures Inv(Unlocked(s, m))
  {
    hide Linked, Threads, MutexOk;
    WakeupLinked(s, MutexQ(m));
    WakeupThreads(s, MutexQ(m));
    var w, r := Wakeup(s, MutexQ(m)), Unlocked(s, m);
    StateLinked(w, r);
    SameThreads(w, r);
    WokenCall(s, m);
    forall k | k in r.mutexes ensures MutexOk(r, k) {
      if k == m { UnlockMutex(s, m); } else { UnlockOther(s, m, k); }
    }
  }

  lemma SameThreads(s: State, r: State)
    requires Threads(s) && r.threads == s.threads && r.cur == s.cur && r.executing == s.executing
    ensures Threads(r)
  {
    forall t | t in r.threads ensures Agree(r.threads[t], Running(r, t)) {
      assert Running(r, t) == Running(s, t);
    }
  }

  // What waking the next waiter of a mutex does.
  lemma WokenCall(s: State, m: nat)
    requires Inv(s) && m in s.mutexes
    ensures var l, w := s.queues[MutexQ(m)].list, Wakeup(s, MutexQ(m));
            if l == [] then w == s else
              && l[0] in s.threads && s.threads[l[0]].wchan == Some(MutexQ(m))
              && s.threads[l[0]].call.Locking? && s.threads[l[0]].call.mutex == m
              && w.threads == s.threads[l[0] := s.threads[l[0]].(wchan := Some(RunQ), state := Run)]
              && w.queues[MutexQ(m)].list == l[1..] && w.queues.Keys == s.queues.Keys
              && forall q :: q in s.queues && q != MutexQ(m) && q != RunQ ==> w.queues[q] == s.queues[q]
    ensures QueueOk(s, MutexQ(m))
  {
    hide Linked, Mutexes;
    QueueIsOk(s, MutexQ(m));
    if s.queues[MutexQ(m)].list != [] {
      DequeueLinked(s, MutexQ(m));
      var t := s.queues[MutexQ(m)].list[0];
      assert Agree(s.threads[t], Running(s, t));
    }
  }

  lemma QueueIsOk(s: State, q: QueueId)
    requires Linked(s) && q in s.queues
    ensures QueueOk(s, q)
  {
  }

  lemma UnlockMutex(s: State, m: nat)
    requires Inv(s) && Enabled(s, Unlock(m))
    ensures MutexOk(Unlocked(s, m), m)
  {
    hide Linked, Threads, Settled;
    WokenCall(s, m);
    var r := Unlocked(s, m);
    assert MutexOk(s, m);
    forall t | t in r.threads ensures Settled(r.threads[t], m, r.mutexes[m].holder == Some(t)) {
      assert Settled(s.threads[t], m, s.mutexes[m].holder == Some(t));
      HoldsSettles(r.threads[t], m);
      OutsideSettles(s.threads[s.cur], m);
    }
  }

  lemma OutsideSettles(r: Thread, m: nat)
    requires r.call == Outside
    ensures forall h :: Settled(r, m, h)
  {
  }

  lemma UnlockOther(s: State, m: nat, k: nat)
    requires Inv(s) && Enabled(s, Unlock(m)) && k in s.mutexes && k != m
    ensures MutexOk(Unlocked(s, m), k)
  {
    hide Linked, Threads;
    WokenCall(s, m);
    assert MutexOk(s, k);
  }

  // sched_cancel
  ghost function Cancelled(s: State, t: Tid): State
    requires Inv(s) && Enabled(s, Cancel(t))
  {
    var r := s.(threads := s.threads[t := s.threads[t].(cancelled := true)]);
    if s.threads[t].state != SleepCancellable then r else
      assert Agree(s.threads[t], Running(s, t));
      MakeRunnable(Remove(r, s.threads[t].wchan.value, t), t)
  }

  lemma CancelKeeps(s: State, t: Tid)
    requires Inv(s) && Enabled(s, Cancel(t))
    ensures Inv(Cancelled(s, t))
  {
    hide Linked, Mutexes, Threads;
    var r := s.(threads := s.threads[t := s.threads[t].(cancelled := true)]);
    StateLinked(s, r);
    CancelThreads(s, t);
    if s.threads[t].state == SleepCancellable {
      CancelLinked(s, t);
      CancelMutexes(s, t);
    } else {
      MutexFrameKeeps(s, r);
    }
  }

  lemma CancelThreads(s: State, t: Tid)
    requires Inv(s) && Enabled(s, Cancel(t))
    ensures Threads(Cancelled(s, t))
  {
    hide Linked, Mutexes;
    assert Agree(s.threads[t], Running(s, t));
    ThreadsUpdate(s, Cancelled(s, t), t);
  }

  lemma CancelLinked(s: State, t: Tid)
    requires Inv(s) && Enabled(s, Cancel(t)) && s.threads[t].state == SleepCancellable
    ensures Linked(Cancelled(s, t)) && Shape(Cancelled(s, t))
  {
    hide Linked, Mutexes;
    assert Agree(s.threads[t], Running(s, t));
    var q := s.threads[t].wchan.value;
    var r := s.(threads := s.threads[t := s.threads[t].(cancelled := true)]);
    StateLinked(s, r);
    RemoveLinked(r, q, t);
    var d := Remove(r, q, t);
    var e := d.(threads := d.threads[t := d.threads[t].(state := Run)]);
    StateLinked(d, e);
    EnqueueLinked(e, RunQ, t);
  }

  lemma CancelMutexes(s: State, t: Tid)
    requires Inv(s) && Enabled(s, Cancel(t)) && s.threads[t].state == SleepCancellable
    ensures Mutexes(Cancelled(s, t))
  {
    hide Linked, MutexOk, QueueOk;
    assert Agree(s.threads[t], Running(s, t));
    var r := Cancelled(s, t);
    forall m | m in r.mutexes ensures MutexOk(r, m) {
      CancelMutex(s, r, t, m);
    }
  }

  lemma CancelMutex(s: State, r: State, t: Tid, m: nat)
    requires Shape(s) && Shape(r) && r.mutexes == s.mutexes && m in s.mutexes && MutexOk(s, m) && t in r.threads
    requires r.threads == s.threads[t := r.threads[t]] && r.threads[t].wchan == Some(RunQ)
    requires r.threads[t].call != Outside && r.threads[t].call.cancellable && r.threads[t].cancelled
    requires s.queues[MutexQ(m)].list == [] ==> r.queues[MutexQ(m)].list == []
    ensures MutexOk(r, m)
  {
    hide Settled;
    CancelSettles(r.threads[t], m);
  }

  lemma CancelSettles(r: Thread, m: nat)
    requires r.call != Outside && r.call.cancellable && r.cancelled
    ensures forall h :: Settled(r, m, h)
  {
  }

  // sched_sleep_on and sched_cancellable_sleep_on, up to their return
  ghost function Slept(s: State, n: nat, cancellable: bool): State
    requires Inv(s) && Enabled(s, SleepOn(n, cancellable))
  {
    BlockLinked(s, Other(n), Sleeping(n, cancellable));
    Switch(Block(s, Other(n), Sleeping(n, cancellable)))
  }

  lemma SleepKeeps(s: State, n: nat, cancellable: bool)
    requires Inv(s) && Enabled(s, SleepOn(n, cancellable))
    ensures Inv(Slept(s, n, cancellable))
  {
    BlockKeeps(s, Other(n), Sleeping(n, cancellable));
    SwitchKeeps(Block(s, Other(n), Sleeping(n, cancellable)));
  }

  // The current thread is put back on the run queue, before it switches.
  function Preempt(s: State): State
    requires RunQ in s.queues && s.cur in s.threads
  {
    MakeRunnable(s.(executing := false), s.cur)
  }

  lemma PreemptKeeps(s: State)
    requires Inv(s) && s.executing
    ensures Inv(Preempt(s))
  {
    hide Linked, Mutexes;
    assert Agree(s.threads[s.cur], Running(s, s.cur));
    var r := s.(executing := false, threads := s.threads[s.cur := s.threads[s.cur].(state := Run)]);
    StateLinked(s, r);
    EnqueueLinked(r, RunQ, s.cur);
    ThreadsUpdate(s, Preempt(s), s.cur);
    MutexFrameKeeps(s, Preempt(s));
  }

  // sched_make_runnable of the current thread, then sched_switch
  ghost function Yielded(s: State): State
    requires Inv(s) && Enabled(s, Yield)
  {
    PreemptKeeps(s);
    Switch(Preempt(s))
  }

  lemma YieldKeeps(s: State)
    requires Inv(s) && Enabled(s, Yield)
    ensures Inv(Yielded(s))
  {
    PreemptKeeps(s);
    SwitchKeeps(Preempt(s));
  }

  // The current thread ends, before it switches.
  function Ended(s: State): State
    requires s.cur in s.threads
  {
    s.(executing := false, threads := s.threads[s.cur := s.threads[s.cur].(state := Exited)])
  }

  lemma EndedKeeps(s: State)
    requires Inv(s) && s.executing && s.threads[s.cur].call == Outside
    ensures Inv(Ended(s))
  {
    hide Linked, Mutexes;
    assert Agree(s.threads[s.cur], Running(s, s.cur));
    StateLinked(s, Ended(s));
    ThreadsUpdate(s, Ended(s), s.cur);
    MutexFrameKeeps(s, Ended(s));
  }

  ghost function Quit(s: State): State
    requires Inv(s) && Enabled(s, Exit)
  {
    EndedKeeps(s);
    Switch(Ended(s))
  }

  lemma QuitKeeps(s: State)
    requires Inv(s) && Enabled(s, Exit)
    ensures Inv(Quit(s))
  {
    EndedKeeps(s);
    SwitchKeeps(Ended(s));
  }

  // A new thread is made runnable.
  ghost function Spawned(s: State, t: Tid): State
    requires Inv(s)
  {
    MakeRunnable(s.(threads := s.threads[t := Thread(None, NoState, false, Outside)]), t)
  }

  lemma SpawnKeeps(s: State, t: Tid)
    requires Inv(s) && Enabled(s, Spawn(t))
    ensures Inv(Spawned(s, t))
  {
    hide Mutexes, Linked;
    var r := s.(threads := s.threads[t := Thread(None, Run, false, Outside)]);
    NewLinked(s, r, t);
    var n := s.threads[t := Thread(None, NoState, false, Outside)];
    assert n[t := n[t].(state := Run)] == r.threads;
    EnqueueLinked(r, RunQ, t);
    ThreadsUpdate(s, Spawned(s, t), t);
    MutexFrameKeeps(s, Spawned(s, t));
  }

  lemma NewLinked(s: State, r: State, t: Tid)
    requires Linked(s) && t !in s.threads && r.queues == s.queues && t in r.threads
    requires r.threads == s.threads[t := r.threads[t]] && r.threads[t].wchan.None?
    ensures Linked(r)
  {
    forall q | q in r.queues ensures QueueOk(r, q) {
      assert QueueOk(s, q);
    }
  }

  // Whether the call the current thread is in returns -EINTR.
  ghost predicate Interrupted(s: State)
    requires Shape(s) && s.threads[s.cur].call != Outside
  {
    s.threads[s.cur].call.cancellable && s.threads[s.cur].cancelled
  }

  // A blocked call returns: what is after sched_switch in the sleeping functions.
  ghost function Returned(s: State): State
    requires Inv(s) && Enabled(s, Return)
  {
    var call := s.threads[s.cur].call;
    var r := s.(threads := s.threads[s.cur := s.threads[s.cur].(call := Outside)]);
    if call.Locking? && !Interrupted(s)
    then r.(mutexes := s.mutexes[call.mutex := s.mutexes[call.mutex].(inside := s.mutexes[call.mutex].inside
                                                                      + {s.cur})])
    else r
  }

  // A return from kmutex_lock, or of 0 from kmutex_lock_cancellable, is to the holder.
  lemma ReturnHolds(s: State)
    requires Inv(s) && s.executing && s.threads[s.cur].call.Locking? && !Interrupted(s)
    ensures s.mutexes[s.threads[s.cur].call.mutex].holder == Some(s.cur)
  {
    var m := s.threads[s.cur].call.mutex;
    assert MutexOk(s, m);
    assert Agree(s.threads[s.cur], Running(s, s.cur));
    assert Settled(s.threads[s.cur], m, s.mutexes[m].holder == Some(s.cur));
  }

  lemma ReturnKeeps(s: State)
    requires Inv(s) && Enabled(s, Return)
    ensures Inv(Returned(s))
  {
    hide Linked, MutexOk;
    var r := Returned(s);
    assert Agree(s.threads[s.cur], Running(s, s.cur));
    StateLinked(s, r);
    ThreadsUpdate(s, r, s.cur);
    if s.threads[s.cur].call.Locking? && !Interrupted(s) {
      ReturnHolds(s);
    }
    forall m | m in r.mutexes ensures MutexOk(r, m) {
      ReturnMutex(s, r, m);
    }
  }

  lemma ReturnMutex(s: State, r: State, m: nat)
    requires Shape(s) && Shape(r) && r.queues == s.queues && m in s.mutexes && MutexOk(s, m)
    requires r.threads == s.threads[s.cur := s.threads[s.cur].(call := Outside)]
    requires r.mutexes[m].holder == s.mutexes[m].holder
    requires r.mutexes[m].inside == s.mutexes[m].inside
             || (s.mutexes[m].holder == Some(s.cur) && r.mutexes[m].inside == s.mutexes[m].inside + {s.cur})
    ensures MutexOk(r, m)
  {
    hide Settled;
    OutsideSettles(r.threads[s.cur], m);
  }

  // sched_switch finds a thread on the run queue after an interrupt.
  ghost function Resumed(s: State): State
    requires Inv(s) && Idle(s)
  {
    Dispatch(s)
  }

  lemma IdleEnabled(s: State)
    requires Shape(s) && Enabled(s, Resume)
    ensures Idle(s)
  {
  }

  ghost function Woken(s: State, n: nat): State
    requires Inv(s) && Other(n) in s.queues
  {
    Wakeup(s, Other(n))
  }

  ghost function Roused(s: State, n: nat): State
    requires Inv(s) && Other(n) in s.queues
  {
    Broadcast(s, Other(n))
  }

  ghost function Next(s: State, e: Event): State
    requires Inv(s) && Enabled(s, e)
  {
    match e
    case Lock(m, c) => Locked(s, m, c)
    case Unlock(m) => Unlocked(s, m)
    case SleepOn(n, c) => Slept(s, n, c)
    case WakeupOn(n) => Woken(s, n)
    case BroadcastOn(n) => Roused(s, n)
    case Cancel(t) => Cancelled(s, t)
    case Yield => Yielded(s)
    case Exit => Quit(s)
    case Return => Returned(s)
    case Resume => IdleEnabled(s); Resumed(s)
    case Spawn(t) => Spawned(s, t)
  }

  lemma NextKeeps(s: State, e: Event)
    requires Inv(s) && Enabled(s, e)
    ensures Inv(Next(s, e))
  {
    hide Inv, Wakeup, Broadcast, Cancelled, Yielded, Quit, Spawned, Returned, Slept, Locked, Unlocked;
    match e
    case Lock(m, c) => LockKeeps(s, m, c);
    case Unlock(m) => UnlockKeeps(s, m);
    case SleepOn(n, c) => SleepKeeps(s, n, c);
    case WakeupOn(n) => WakeupKeeps(s, n);
    case BroadcastOn(n) => BroadcastKeeps(s, n);
    case Cancel(t) => CancelKeeps(s, t);
    case Yield => YieldKeeps(s);
    case Exit => QuitKeeps(s);
    case Spawn(t) => SpawnKeeps(s, t);
    case Return => ReturnKeeps(s);
    case Resume => DispatchKeeps(s);
  }

  // ---------- runs ----------

  ghost predicate CanRun(s: State, es: seq<Event>)
    requires Inv(s)
    decreases |es|
  {
    es == [] || (Enabled(s, es[0]) && (NextKeeps(s, es[0]); CanRun(Next(s, es[0]), es[1..])))
  }

  ghost function After(s: State, es: seq<Event>): State
    requires Inv(s) && CanRun(s, es)
    decreases |es|
  {
    if es == [] then s else NextKeeps(s, es[0]); After(Next(s, es[0]), es[1..])
  }

  // The state sched_init and kmutex_init leave: one thread, empty queues, free mutexes.
  ghost predicate Initial(s: State)
  {
    && s.executing && s.threads == map[s.cur := Thread(None, Run, false, Outside)]
    && Shape(s) && (forall q :: q in s.queues ==> s.queues[q] == Queue([], 0))
    && forall m :: m in s.mutexes ==> s.mutexes[m] == Mutex(None, {})
  }

  lemma InitialInv(s: State)
    requires Initial(s)
    ensures Inv(s)
  {
    assert Linked(s);
  }

  lemma {:induction false} AfterInv(s: State, es: seq<Event>)
    requires Inv(s) && CanRun(s, es)
    ensures Inv(After(s, es))
    decreases |es|
  {
    if es != [] {
      NextKeeps(s, es[0]);
      AfterInv(Next(s, es[0]), es[1..]);
    }
  }
}
