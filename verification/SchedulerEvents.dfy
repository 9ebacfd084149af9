/**
 What each event of the scheduler and the mutexes does, field by field: who sleeps where,
 who becomes runnable, who runs next and who holds the mutex, and that nothing else changes.
 Then, over every run, which threads are cancelled and which calls return -EINTR.
 */
module SchedulerEvents {
  import opened Common
  import opened Lists
  import opened Scheduler

  // Threads, queues and mutexes besides the given ones are as they were.
  ghost predicate Only(s: State, r: State, ts: set<Tid>, qs: set<QueueId>, ms: set<nat>)
  {
    && r.threads.Keys == s.threads.Keys && r.queues.Keys == s.queues.Keys && r.mutexes.Keys == s.mutexes.Keys
    && (forall t :: t in s.threads && t !in ts ==> r.threads[t] == s.threads[t])
    && (forall q :: q in s.queues && q !in qs ==> r.queues[q] == s.queues[q])
    && (forall m :: m in s.mutexes && m !in ms ==> r.mutexes[m] == s.mutexes[m])
  }

  // The processor goes to the thread that has been runnable longest, or idles if there is
  // none. `queue` is the run queue that it finds.
  ghost predicate GoesOn(r: State, queue: seq<Tid>)
  {
    && RunQ in r.queues
    && (queue == [] ==> !r.executing && r.queues[RunQ].list == [])
    && (queue != [] ==>
          && r.executing && r.cur == queue[0] && r.queues[RunQ].list == queue[1..]
          && r.cur in r.threads && r.threads[r.cur].wchan == None)
  }

  // A thread has gone from being blocked or running to another queue or state, and is else
  // what it was.
  ghost predicate Became(a: Thread, b: Thread, wchan: Option<QueueId>, state: ThreadState, call: Call)
  {
    b.wchan == wchan && b.state == state && b.call == call && b.cancelled == a.cancelled
  }

  // ---------- sleeping ----------

  // The current thread sleeps at the end of queue q.
  ghost predicate FallsAsleep(s: State, r: State, q: QueueId, call: Call, cancellable: bool)
    requires Shape(s) && q in s.queues
  {
    var next := s.queues[RunQ].list;
    && GoesOn(r, next) && r.mutexes == s.mutexes
    && Only(s, r, {s.cur} + (if next == [] then {} else {next[0]}), {q, RunQ}, {})
    && r.queues[q].list == s.queues[q].list + [s.cur]
    && Became(s.threads[s.cur], r.threads[s.cur], Some(q), if cancellable then SleepCancellable else Sleep, call)
    && (next != [] ==> next[0] in s.threads && Became(s.threads[next[0]], r.threads[next[0]], None, Run,
                                                      s.threads[next[0]].call))
  }

  lemma BlockExact(s: State, q: QueueId, call: Call)
    requires Inv(s) && s.executing && q in s.queues && q != RunQ && call != Outside
    ensures Linked(Block(s, q, call)) && FallsAsleep(s, Switch(Block(s, q, call)), q, call, call.cancellable)
  {
    hide Mutexes, Threads, Linked, Switch;
    BlockLinked(s, q, call);
    RunsNext(s);
    SwitchExact(Block(s, q, call));
  }

  lemma SwitchExact(s: State)
    requires Linked(s) && RunQ in s.queues
    ensures var r, l := Switch(s), s.queues[RunQ].list;
            && r.mutexes == s.mutexes && r.queues.Keys == s.queues.Keys && (l == [] ==> r == s)
            && (forall q :: q in s.queues && q != RunQ ==> r.queues[q] == s.queues[q])
            && (l != [] ==>
                  && r.executing && r.cur == l[0] && r.queues[RunQ].list == l[1..] && l[0] in s.threads
                  && r.threads == s.threads[l[0] := s.threads[l[0]].(wchan := None)])
  {
    if s.queues[RunQ].list != [] { DequeueLinked(s, RunQ); }
  }

  // Whoever is first on the run queue is not the current thread, and runnable.
  lemma RunsNext(s: State)
    requires Shape(s) && Linked(s) && Threads(s)
    ensures var l := s.queues[RunQ].list;
            l != [] ==> && l[0] in s.threads && s.threads[l[0]].state == Run && s.threads[l[0]].wchan == Some(RunQ)
                        && (s.executing ==> l[0] != s.cur)
  {
    QueueIsOk(s, RunQ);
    var l := s.queues[RunQ].list;
    if l != [] {
      assert l[0] in l;
      assert Agree(s.threads[l[0]], Running(s, l[0]));
    }
  }

  lemma SleepExact(s: State, n: nat, cancellable: bool)
    requires Inv(s) && Enabled(s, SleepOn(n, cancellable))
    ensures FallsAsleep(s, Next(s, SleepOn(n, cancellable)), Other(n), Sleeping(n, cancellable), cancellable)
  {
    hide Inv, FallsAsleep;
    BlockExact(s, Other(n), Sleeping(n, cancellable));
  }

  // ---------- mutexes ----------

  // A free mutex is taken at once, whichever way it is asked for; else the thread sleeps.
  lemma LockExact(s: State, m: nat, cancellable: bool)
    requires Inv(s) && Enabled(s, Lock(m, cancellable))
    ensures var r := Next(s, Lock(m, cancellable));
            if s.mutexes[m].holder == None then
              && Only(s, r, {}, {}, {m}) && r.cur == s.cur && r.executing
              && r.mutexes[m].holder == Some(s.cur) && r.mutexes[m].inside == s.mutexes[m].inside + {s.cur}
            else
              MutexQ(m) in s.queues && FallsAsleep(s, r, MutexQ(m), Locking(m, cancellable), cancellable)
  {
    hide Linked, Threads, Mutexes, FallsAsleep;
    if s.mutexes[m].holder.Some? { BlockExact(s, MutexQ(m), Locking(m, cancellable)); }
  }

  // An unlock gives the mutex to the thread that has waited longest and makes it runnable,
  // or leaves it free.
  lemma UnlockExact(s: State, m: nat)
    requires Inv(s) && Enabled(s, Unlock(m))
    ensures var r, l := Next(s, Unlock(m)), s.queues[MutexQ(m)].list;
            && r.cur == s.cur && r.executing && m in r.mutexes && s.cur !in r.mutexes[m].inside
            && (l == [] ==> Only(s, r, {}, {}, {m}) && r.mutexes[m].holder == None)
            && (l != [] ==> r.mutexes[m].holder == Some(l[0]) && Wakes(s, r, MutexQ(m), {m}))
  {
    hide Linked, Threads, Mutexes, QueueOk, Wakes;
    WakeupExact(s, MutexQ(m));
    WokenCall(s, m);
    SizeOf(s, MutexQ(m));
    var w, r := Wakeup(s, MutexQ(m)), Unlocked(s, m);
    if s.queues[MutexQ(m)].list != [] { WakesToo(s, w, r, MutexQ(m), m); }
  }

  lemma SizeOf(s: State, q: QueueId)
    requires Linked(s) && q in s.queues
    ensures s.queues[q].size == |s.queues[q].list|
  {
    QueueIsOk(s, q);
  }

  // ---------- waking ----------

  // The thread that has slept longest on q goes to the end of the run queue.
  ghost predicate Wakes(s: State, r: State, q: QueueId, ms: set<nat>)
    requires Shape(s) && q in s.queues && s.queues[q].list != []
  {
    var t := s.queues[q].list[0];
    && Only(s, r, {t}, {q, RunQ}, ms) && r.cur == s.cur && r.executing == s.executing
    && t in s.threads && Became(s.threads[t], r.threads[t], Some(RunQ), Run, s.threads[t].call)
    && r.queues[q].list == s.queues[q].list[1..] && r.queues[RunQ].list == s.queues[RunQ].list + [t]
  }

  lemma WakesToo(s: State, w: State, r: State, q: QueueId, m: nat)
    requires Shape(s) && q in s.queues && s.queues[q].list != [] && Wakes(s, w, q, {}) && m in s.mutexes
    requires m in r.mutexes && r == w.(mutexes := s.mutexes[m := r.mutexes[m]])
    ensures Wakes(s, r, q, {m})
  {
  }

  lemma WakeupExact(s: State, q: QueueId)
    requires Inv(s) && q in s.queues && q != RunQ
    ensures if s.queues[q].list == [] then Wakeup(s, q) == s else Wakes(s, Wakeup(s, q), q, {})
  {
    hide Mutexes, Threads, Linked, Dequeue, MakeRunnable;
    if s.queues[q].list != [] {
      DequeueLinked(s, q);
      DequeueExact(s, q);
      RunnableExact(Dequeue(s, q), s.queues[q].list[0]);
    }
  }

  lemma DequeueExact(s: State, q: QueueId)
    requires q in s.queues && s.queues[q].list != [] && s.queues[q].list[0] in s.threads
    ensures var r, t := Dequeue(s, q), s.queues[q].list[0];
            && r.cur == s.cur && r.executing == s.executing && r.mutexes == s.mutexes && r.queues.Keys == s.queues.Keys
            && r.threads == s.threads[t := s.threads[t].(wchan := None)]
            && r.queues[q].list == s.queues[q].list[1..]
            && forall p :: p in s.queues && p != q ==> r.queues[p] == s.queues[p]
  {
  }

  lemma WakeupOnExact(s: State, n: nat)
    requires Inv(s) && Enabled(s, WakeupOn(n))
    ensures var r := Next(s, WakeupOn(n));
            if s.queues[Other(n)].list == [] then r == s else Wakes(s, r, Other(n), {})
  {
    hide Inv, Wakes, Wakeup;
    WakeupExact(s, Other(n));
  }

  // All who sleep on q become runnable, in their order.
  ghost predicate AllWake(s: State, r: State, q: QueueId)
    requires Shape(s) && q in s.queues
  {
    var l := s.queues[q].list;
    && Only(s, r, set t | t in l, {q, RunQ}, {}) && r.cur == s.cur && r.executing == s.executing
    && r.queues[q].list == [] && r.queues[RunQ].list == s.queues[RunQ].list + l
    && forall t :: t in l ==>
         t in s.threads && Became(s.threads[t], r.threads[t], Some(RunQ), Run, s.threads[t].call)
  }

  lemma BroadcastExact(s: State, n: nat)
    requires Inv(s) && Enabled(s, BroadcastOn(n))
    ensures AllWake(s, Next(s, BroadcastOn(n)), Other(n))
  {
    hide Inv, Broadcast, AllWake;
    BroadcastAll(s, n);
  }

  lemma {:induction false} BroadcastAll(s: State, n: nat)
    requires Inv(s) && Other(n) in s.queues
    ensures AllWake(s, Broadcast(s, Other(n)), Other(n))
    decreases |s.queues[Other(n)].list|
  {
    hide Linked, Threads, Mutexes, Wakeup, Wakes, AllWake;
    if s.queues[Other(n)].list == [] {
      NoneWake(s, Other(n));
    } else {
      var w := Wakeup(s, Other(n));
      WakeupExact(s, Other(n));
      WakeupKeeps(s, n);
      WakeupLinked(s, Other(n));
      WakesShorter(s, w, Other(n));
      BroadcastAll(w, n);
      FirstOnce(s, Other(n));
      OneThenAll(s, w, Broadcast(w, Other(n)), Other(n));
    }
  }

  lemma NoneWake(s: State, q: QueueId)
    requires Shape(s) && q in s.queues && s.queues[q].list == []
    ensures AllWake(s, s, q)
  {
  }

  lemma WakesShorter(s: State, w: State, q: QueueId)
    requires Shape(s) && q in s.queues && s.queues[q].list != [] && Wakes(s, w, q, {})
    ensures q in w.queues && w.queues[q].list == s.queues[q].list[1..]
  {
  }

  lemma OneThenAll(s: State, w: State, r: State, q: QueueId)
    requires Shape(s) && Shape(w) && q in s.queues && q in w.queues && q != RunQ && s.queues[q].list != []
    requires Wakes(s, w, q, {}) && AllWake(w, r, q) && s.queues[q].list[0] !in s.queues[q].list[1..]
    ensures AllWake(s, r, q)
  {
    var l := s.queues[q].list;
    assert l == [l[0]] + l[1..];
    assert s.queues[RunQ].list + l == s.queues[RunQ].list + [l[0]] + l[1..];
    assert forall t :: t in l <==> t == l[0] || t in w.queues[q].list;
  }

  lemma FirstOnce(s: State, q: QueueId)
    requires Linked(s) && q in s.queues && s.queues[q].list != []
    ensures s.queues[q].list[0] !in s.queues[q].list[1..]
  {
    QueueIsOk(s, q);
  }

  // A cancel marks the thread. If it sleeps cancellably, on whatever queue, it also leaves
  // that queue and becomes runnable; else it stays where it is.
  lemma CancelExact(s: State, t: Tid)
    requires Inv(s) && Enabled(s, Cancel(t))
    ensures var r := Next(s, Cancel(t));
            && r.cur == s.cur && r.executing == s.executing && r.mutexes == s.mutexes && t in r.threads
            && r.threads[t].cancelled && r.threads[t].call == s.threads[t].call
            && if s.threads[t].state == SleepCancellable then
                 && s.threads[t].wchan.Some? && s.threads[t].wchan.value in s.queues
                 && var q := s.threads[t].wchan.value;
                    && Only(s, r, {t}, {q, RunQ}, {})
                    && r.threads[t].state == Run && r.threads[t].wchan == Some(RunQ)
                    && r.queues[q].list == Without(s.queues[q].list, t)
                    && r.queues[RunQ].list == s.queues[RunQ].list + [t]
               else
                 && Only(s, r, {t}, {}, {})
                 && r.threads[t].state == s.threads[t].state && r.threads[t].wchan == s.threads[t].wchan
  {
    hide Mutexes, Linked, Remove, MakeRunnable;
    assert Agree(s.threads[t], Running(s, t));
    if s.threads[t].state == SleepCancellable {
      var q := s.threads[t].wchan.value;
      var d := s.(threads := s.threads[t := s.threads[t].(cancelled := true)]);
      WchanKnown(s, t);
      RemoveExact(d, q, t);
      RunnableExact(Remove(d, q, t), t);
    }
  }

  lemma WchanKnown(s: State, t: Tid)
    requires Linked(s) && t in s.threads && s.threads[t].wchan.Some?
    ensures s.threads[t].wchan.value in s.queues
  {
  }

  lemma RemoveExact(s: State, q: QueueId, t: Tid)
    requires q in s.queues && t in s.threads
    ensures var r := Remove(s, q, t);
            && r.cur == s.cur && r.executing == s.executing && r.mutexes == s.mutexes && r.queues.Keys == s.queues.Keys
            && r.threads == s.threads[t := s.threads[t].(wchan := None)]
            && r.queues[q].list == Without(s.queues[q].list, t)
            && forall p :: p in s.queues && p != q ==> r.queues[p] == s.queues[p]
  {
  }

  lemma RunnableExact(s: State, t: Tid)
    requires RunQ in s.queues && t in s.threads
    ensures var r := MakeRunnable(s, t);
            && r.cur == s.cur && r.executing == s.executing && r.mutexes == s.mutexes && r.queues.Keys == s.queues.Keys
            && r.threads == s.threads[t := s.threads[t].(wchan := Some(RunQ), state := Run)]
            && r.queues[RunQ].list == s.queues[RunQ].list + [t]
            && forall p :: p in s.queues && p != RunQ ==> r.queues[p] == s.queues[p]
  {
  }

  // ---------- the rest ----------

  // A yield puts the thread behind all that are runnable.
  lemma YieldExact(s: State)
    requires Inv(s) && Enabled(s, Yield)
    ensures var r, l := Next(s, Yield), s.queues[RunQ].list + [s.cur];
            && GoesOn(r, l) && Only(s, r, {s.cur, l[0]}, {RunQ}, {})
            && l[0] in s.threads && Became(s.threads[l[0]], r.threads[l[0]], None, Run, s.threads[l[0]].call)
            && (l[0] != s.cur ==> Became(s.threads[s.cur], r.threads[s.cur], Some(RunQ), Run, Outside))
  {
    hide Mutexes, Linked, Threads, Switch, MakeRunnable;
    PreemptKeeps(s);
    RunsNext(s);
    StaysRunnable(s);
    RunnableExact(s.(executing := false), s.cur);
    SwitchExact(Preempt(s));
  }

  // A thread that ends is on no queue and does not run.
  lemma ExitExact(s: State)
    requires Inv(s) && Enabled(s, Exit)
    ensures var r, l := Next(s, Exit), s.queues[RunQ].list;
            && GoesOn(r, l) && Only(s, r, {s.cur} + (if l == [] then {} else {l[0]}), {RunQ}, {})
            && Became(s.threads[s.cur], r.threads[s.cur], None, Exited, Outside)
            && (l != [] ==> l[0] in s.threads && Became(s.threads[l[0]], r.threads[l[0]], None, Run,
                                                        s.threads[l[0]].call))
  {
    hide Mutexes, Linked, Threads, Switch;
    EndedKeeps(s);
    RunsNext(s);
    StaysRunnable(s);
    SwitchExact(Ended(s));
  }

  lemma StaysRunnable(s: State)
    requires Shape(s) && Threads(s) && s.executing
    ensures s.threads[s.cur].state == Run && s.threads[s.cur].wchan == None
  {
    assert Agree(s.threads[s.cur], Running(s, s.cur));
  }

  // A new thread is runnable, behind all others.
  lemma SpawnExact(s: State, t: Tid)
    requires Inv(s) && Enabled(s, Spawn(t))
    ensures var r := Next(s, Spawn(t));
            && r.cur == s.cur && r.executing && r.mutexes == s.mutexes && r.queues.Keys == s.queues.Keys
            && r.threads == s.threads[t := Thread(Some(RunQ), Run, false, Outside)]
            && r.queues[RunQ].list == s.queues[RunQ].list + [t]
            && forall q :: q in s.queues && q != RunQ ==> r.queues[q] == s.queues[q]
  {
    hide Mutexes, Linked, Threads;
    var n := s.threads[t := Thread(None, NoState, false, Outside)];
    assert n[t := n[t].(state := Run)][t := n[t].(state := Run, wchan := Some(RunQ))]
           == s.threads[t := Thread(Some(RunQ), Run, false, Outside)];
  }

  // The thread that waited longest gets the idle processor.
  lemma ResumeExact(s: State)
    requires Inv(s) && Enabled(s, Resume)
    ensures var r, l := Next(s, Resume), s.queues[RunQ].list;
            && l != [] && GoesOn(r, l) && Only(s, r, {l[0]}, {RunQ}, {})
            && l[0] in s.threads && Became(s.threads[l[0]], r.threads[l[0]], None, Run, s.threads[l[0]].call)
  {
    hide Mutexes;
    IdleEnabled(s);
    RunsNext(s);
  }

  // A blocked call returns; the thread that called kmutex_lock is then inside, unless the
  // call was cancellable and the thread has been cancelled.
  lemma ReturnExact(s: State)
    requires Inv(s) && Enabled(s, Return)
    ensures var r, c := Next(s, Return), s.threads[s.cur].call;
            && r.cur == s.cur && r.executing && r.queues == s.queues
            && Only(s, r, {s.cur}, {}, if c.Locking? then {c.mutex} else {})
            && Became(s.threads[s.cur], r.threads[s.cur], s.threads[s.cur].wchan, s.threads[s.cur].state, Outside)
            && (c.Locking? ==>
                  && c.mutex in s.mutexes && r.mutexes[c.mutex].holder == s.mutexes[c.mutex].holder
                  && r.mutexes[c.mutex].inside
                     == s.mutexes[c.mutex].inside + if c.cancellable && s.threads[s.cur].cancelled then {} else {s.cur})
  {
    hide Linked, Threads, MutexOk;
  }

  // ---------- over every run ----------

  // Only a cancel marks a thread, and nothing takes the mark away.
  lemma MarkStep(s: State, e: Event, t: Tid)
    requires Inv(s) && Enabled(s, e)
    ensures t in Next(s, e).threads <==> t in s.threads || e == Spawn(t)
    ensures t in Next(s, e).threads ==>
              (Next(s, e).threads[t].cancelled <==> e == Cancel(t) || (t in s.threads && s.threads[t].cancelled))
  {
    hide Inv, Next;
    match e
    case Lock(m, c) => LockExact(s, m, c);
    case Unlock(m) => UnlockExact(s, m);
    case SleepOn(n, c) => SleepExact(s, n, c);
    case WakeupOn(n) => WakeupOnExact(s, n);
    case BroadcastOn(n) => BroadcastExact(s, n);
    case Cancel(u) => CancelExact(s, u);
    case Yield => YieldExact(s);
    case Exit => ExitExact(s);
    case Spawn(u) => SpawnExact(s, u);
    case Return => ReturnExact(s);
    case Resume => ResumeExact(s);
  }

  lemma {:induction false} MarkedRun(s: State, es: seq<Event>, t: Tid)
    requires Inv(s) && CanRun(s, es) && t in After(s, es).threads
    ensures After(s, es).threads[t].cancelled <==> Cancel(t) in es || (t in s.threads && s.threads[t].cancelled)
    decreases |es|
  {
    hide Inv, Next;
    if es != [] {
      NextKeeps(s, es[0]);
      MarkedRun(Next(s, es[0]), es[1..], t);
      MarkStep(s, es[0], t);
      assert es == [es[0]] + es[1..];
    }
  }

  // Over every run from the start, a blocked call is about to return -EINTR exactly if it is
  // cancellable and its thread has been cancelled at some time before.
  lemma EintrExact(s: State, es: seq<Event>)
    requires Initial(s) && (InitialInv(s); CanRun(s, es)) && (AfterInv(s, es); Enabled(After(s, es), Return))
    ensures (AfterInv(s, es);
             var r := After(s, es);
             Interrupted(r) <==> r.threads[r.cur].call.cancellable && Cancel(r.cur) in es)
  {
    InitialInv(s);
    AfterInv(s, es);
    MarkedRun(s, es, After(s, es).cur);
  }
}
