/**
 The scheduler and mutex functions as they update the kernel's variables in place, each
 proved to be the event of the state machine. The assertions inside the source's functions
 are preconditions of the methods here, and so proved at every call.
 */
module Kernel {
  import opened Common
  import opened Lists
  import opened Scheduler
  import opened SchedulerEvents

  function EmptyQueues(others: set<nat>, mtxs: set<nat>): (r: map<QueueId, Queue>)
    ensures forall q :: q in r <==> q == RunQ || (q.Other? && q.id in others) || (q.MutexQ? && q.mutex in mtxs)
    ensures forall q :: q in r ==> r[q] == Queue([], 0)
  {
    (map n | n in others :: Other(n) := Queue([], 0)) + (map m | m in mtxs :: MutexQ(m) := Queue([], 0))
        + map[RunQ := Queue([], 0)]
  }

  class Kernel {
    var cur: Tid
    var executing: bool
    var threads: map<Tid, Thread>
    var queues: map<QueueId, Queue>
    var mutexes: map<nat, Mutex>

    ghost function Value(): State
      reads this
    {
      State(cur, executing, threads, queues, mutexes)
    }

    // sched_init, sched_queue_init and kmutex_init, with the first thread current
    constructor (first: Tid, others: set<nat>, mtxs: set<nat>)
      ensures Initial(Value()) && cur == first && Inv(Value())
      ensures forall q :: q in queues <==> q == RunQ || (q.Other? && q.id in others) || (q.MutexQ? && q.mutex in mtxs)
    {
      cur, executing, threads := first, true, map[first := Thread(None, Run, false, Outside)];
      queues := EmptyQueues(others, mtxs);
      mutexes := map m | m in mtxs :: Mutex(None, {});
      new;
      hide Inv, EmptyQueues;
      InitialInv(Value());
    }

    // ktqueue_enqueue
    method KtqueueEnqueue(q: QueueId, t: Tid)
      requires q in queues && t in threads && threads[t].wchan.None?
      modifies this
      ensures Value() == Enqueue(old(Value()), q, t)
    {
      queues := queues[q := Queue(queues[q].list + [t], queues[q].size + 1)];
      threads := threads[t := threads[t].(wchan := Some(q))];
    }

    // ktqueue_dequeue
    method KtqueueDequeue(q: QueueId) returns (thr: Option<Tid>)
      requires Linked(Value()) && q in queues
      modifies this
      ensures thr.None? <==> old(queues)[q].list == []
      ensures thr.None? ==> Value() == old(Value())
      ensures thr.Some? ==> thr.value == old(queues)[q].list[0] && thr.value in old(threads)
                            && Value() == Dequeue(old(Value()), q)
      ensures Linked(Value())
    {
      thr := None;
      if queues[q].list != [] {
        DequeueLinked(Value(), q);
        var t := queues[q].list[0];
        queues := queues[q := Queue(queues[q].list[1..], queues[q].size - 1)];
        threads := threads[t := threads[t].(wchan := None)];
        thr := Some(t);
      }
    }

    // ktqueue_remove
    method KtqueueRemove(q: QueueId, t: Tid)
      requires q in queues && t in threads && t in queues[q].list
      modifies this
      ensures Value() == Remove(old(Value()), q, t)
    {
      queues := queues[q := Queue(Without(queues[q].list, t), queues[q].size - 1)];
      threads := threads[t := threads[t].(wchan := None)];
    }

    // sched_make_runnable
    method SchedMakeRunnable(t: Tid)
      requires RunQ in queues && t in threads && threads[t].wchan.None?
      modifies this
      ensures Value() == MakeRunnable(old(Value()), t)
    {
      threads := threads[t := threads[t].(state := Run)];
      KtqueueEnqueue(RunQ, t);
    }

    // sched_switch, up to waiting for an interrupt
    method SchedSwitch()
      requires Linked(Value()) && RunQ in queues && !executing
      modifies this
      ensures Value() == Switch(old(Value()))
    {
      if queues[RunQ].list != [] {
        var thr := KtqueueDequeue(RunQ);
        cur := thr.value;
        executing := true;
      }
    }

    // sched_sleep_on and sched_cancellable_sleep_on, up to their return
    method SchedSleepOn(q: QueueId, call: Call)
      requires Inv(Value()) && executing && q in queues && call != Outside
      modifies this
      ensures Linked(Block(old(Value()), q, call)) && Value() == Switch(Block(old(Value()), q, call))
    {
      hide Linked, Mutexes;
      assert Agree(threads[cur], Running(Value(), cur));
      BlockLinked(Value(), q, call);
      executing := false;
      threads := threads[cur := threads[cur].(call := call, state := if call.cancellable then SleepCancellable
                                              else Sleep)];
      KtqueueEnqueue(q, cur);
      SchedSwitch();
    }

    // sched_wakeup_on
    method SchedWakeupOn(q: QueueId) returns (thr: Option<Tid>)
      requires Linked(Value()) && q in queues && RunQ in queues
      modifies this
      ensures thr == if old(queues)[q].list == [] then None else Some(old(queues)[q].list[0])
      ensures Value() == Wakeup(old(Value()), q)
    {
      hide Linked;
      thr := None;
      if queues[q].list != [] {
        thr := KtqueueDequeue(q);
        SchedMakeRunnable(thr.value);
      }
    }

    // sched_broadcast_on
    method SchedBroadcastOn(n: nat)
      requires Inv(Value()) && Enabled(Value(), BroadcastOn(n))
      modifies this
      ensures Value() == Next(old(Value()), BroadcastOn(n)) && Inv(Value())
      ensures Other(n) in queues && queues[Other(n)].list == []
    {
      hide Inv, Linked, Wakeup;
      ghost var end := (InvParts(Value()); Broadcast(Value(), Other(n)));
      InvParts(Value());
      while queues[Other(n)].list != []
        invariant Inv(Value()) && Linked(Value()) && RunQ in queues && Other(n) in queues
        invariant Broadcast(Value(), Other(n)) == end
        decreases |queues[Other(n)].list|
      {
        WakeupKeeps(Value(), n);
        WakeupShrinks(Value(), n);
        var _ := SchedWakeupOn(Other(n));
        InvParts(Value());
      }
    }

    // sched_cancel
    method SchedCancel(t: Tid)
      requires Inv(Value()) && Enabled(Value(), Cancel(t))
      modifies this
      ensures Value() == Next(old(Value()), Cancel(t)) && Inv(Value())
      ensures t in threads && threads[t].cancelled
      ensures if old(threads)[t].state == SleepCancellable then
                threads[t].state == Run && queues[RunQ].list == old(queues)[RunQ].list + [t]
              else
                queues == old(queues) && threads[t].state == old(threads)[t].state
    {
      hide Mutexes, Linked, Threads, Only;
      CancelKeeps(Value(), t);
      CancelExact(Value(), t);
      OnQueue(Value(), t);
      threads := threads[t := threads[t].(cancelled := true)];
      if threads[t].state == SleepCancellable {
        KtqueueRemove(threads[t].wchan.value, t);
        SchedMakeRunnable(t);
      }
    }

    // kmutex_lock and kmutex_lock_cancellable, up to the return of a call that blocks
    method KmutexLock(m: nat, cancellable: bool)
      requires Inv(Value()) && Enabled(Value(), Lock(m, cancellable))
      modifies this
      ensures Value() == Next(old(Value()), Lock(m, cancellable)) && Inv(Value())
      ensures old(mutexes)[m].holder == None <==> executing && cur == old(cur) && threads[cur].call == Outside
      ensures old(mutexes)[m].holder == None ==>
                && threads == old(threads) && queues == old(queues) && mutexes.Keys == old(mutexes).Keys
                && mutexes[m].holder == Some(cur) && mutexes[m].inside == old(mutexes)[m].inside + {cur}
                && forall k :: k in mutexes && k != m ==> mutexes[k] == old(mutexes)[k]
    {
      hide Linked, Threads, Mutexes;
      LockKeeps(Value(), m, cancellable);
      LockExact(Value(), m, cancellable);
      if mutexes[m].holder.Some? {
        SchedSleepOn(MutexQ(m), Locking(m, cancellable));
      } else {
        mutexes := mutexes[m := Mutex(Some(cur), mutexes[m].inside + {cur})];
      }
    }

    // kmutex_unlock
    method KmutexUnlock(m: nat)
      requires Inv(Value()) && Enabled(Value(), Unlock(m))
      modifies this
      ensures Value() == Next(old(Value()), Unlock(m)) && Inv(Value())
      ensures var l := old(queues)[MutexQ(m)].list; mutexes[m].holder == if l == [] then None else Some(l[0])
      ensures cur == old(cur) && cur !in mutexes[m].inside
    {
      hide Threads, Mutexes, Linked, QueueOk, Only, Wakes;
      UnlockKeeps(Value(), m);
      UnlockExact(Value(), m);
      SizeIs(Value(), MutexQ(m));
      ghost var s := Value();
      mutexes := mutexes[m := Mutex(None, mutexes[m].inside - {cur})];
      if queues[MutexQ(m)].size != 0 {
        StateLinked(s, Value());
        var thr := SchedWakeupOn(MutexQ(m));
        mutexes := mutexes[m := mutexes[m].(holder := thr)];
        assert mutexes == Unlocked(s, m).mutexes;
      }
    }

    // A blocked call returns; `interrupted` says whether with -EINTR.
    method Leave() returns (interrupted: bool)
      requires Inv(Value()) && Enabled(Value(), Return)
      modifies this
      ensures Value() == Next(old(Value()), Return) && Inv(Value())
      ensures interrupted <==> old(threads)[old(cur)].call.cancellable && old(threads)[old(cur)].cancelled
      ensures var call := old(threads)[old(cur)].call;
              call.Locking? && !interrupted ==> call.mutex in mutexes && mutexes[call.mutex].holder == Some(cur)
    {
      hide Linked, Threads, MutexOk;
      ReturnKeeps(Value());
      var call := threads[cur].call;
      interrupted := call.cancellable && threads[cur].cancelled;
      if call.Locking? && !interrupted {
        ReturnHolds(Value());
        mutexes := mutexes[call.mutex := mutexes[call.mutex].(inside := mutexes[call.mutex].inside + {cur})];
      }
      threads := threads[cur := threads[cur].(call := Outside)];
    }
  }

  lemma OnQueue(s: State, t: Tid)
    requires Shape(s) && Linked(s) && Threads(s) && t in s.threads
    ensures s.threads[t].state == SleepCancellable ==> s.threads[t].wchan.Some?
    ensures s.threads[t].wchan.Some? ==>
              s.threads[t].wchan.value in s.queues && t in s.queues[s.threads[t].wchan.value].list
  {
    assert Agree(s.threads[t], Running(s, t));
    if s.threads[t].wchan.Some? { assert QueueOk(s, s.threads[t].wchan.value); }
  }

  lemma SizeIs(s: State, q: QueueId)
    requires Linked(s) && q in s.queues
    ensures s.queues[q].size == |s.queues[q].list|
  {
    assert QueueOk(s, q);
  }

  lemma InvParts(s: State)
    requires Inv(s)
    ensures Shape(s) && Linked(s)
  {
  }

  lemma WakeupShrinks(s: State, n: nat)
    requires Linked(s) && RunQ in s.queues && Other(n) in s.queues && s.queues[Other(n)].list != []
    ensures var w := Wakeup(s, Other(n));
            && Linked(w) && Other(n) in w.queues && RunQ in w.queues
               && |w.queues[Other(n)].list| < |s.queues[Other(n)].list|
            && Broadcast(w, Other(n)) == Broadcast(s, Other(n))
  {
    WakeupLinked(s, Other(n));
  }
}
